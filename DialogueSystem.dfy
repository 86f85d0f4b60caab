/**
 * The dialogue graph interpreter: a node table keyed by id, a current node,
 * an active flag and a visit history without duplicates. Choices are filtered
 * through a small condition language and followed through `nextNodeId`.
 *
 * The pure functions below give each operation's effect on the interpreter's
 * state; the class `DialogueSystem` updates its fields as the source does and
 * its methods are proved to follow those functions.
 */
module DialogueEngine {
  import opened Wrappers
  import opened Seqs
  import opened Notify
  import opened Interfaces

  /** The payloads the interpreter emits. */
  datatype DialogueEvent =
    | Started(node: DialogueNode)
    | Ended
    | NodeChanged(next: DialogueNode, previous: DialogueNode)

  function KindOf(e: DialogueEvent): DialogueEventType {
    match e
    case Started(_) => DialogueStart
    case Ended => DialogueEnd
    case NodeChanged(_, _) => NodeChange
  }

  /** The injected flag predicate, or None when no checker is set. */
  type FlagChecker = Option<string -> bool>

  /** The interpreter's own state: the node table and the session. */
  datatype Engine = Engine(nodes: map<string, DialogueNode>, session: DialogueState)

  /** The state after an operation and the events it emitted, in order. */
  datatype Step = Step(engine: Engine, events: seq<DialogueEvent>)

  const Initial := Engine(map[], DialogueState(None, [], false))

  /** `getCurrentNode`: null when the current id is null or the empty string, or is not in the table. */
  function CurrentNode(e: Engine): (r: Option<DialogueNode>)
    ensures r.Some? ==> e.session.currentNodeId.Some? && e.session.currentNodeId.value in e.nodes
    ensures r.Some? ==> r.value == e.nodes[e.session.currentNodeId.value]
    ensures r.None? ==> e.session.currentNodeId.None? || e.session.currentNodeId == Some("")
                        || e.session.currentNodeId.value !in e.nodes
  {
    match e.session.currentNodeId
    case None => None
    case Some(id) => if id != "" && id in e.nodes then Some(e.nodes[id]) else None
  }

  const VisitedPrefix := "visited:"

  /** `condition.startsWith('visited:')`. */
  predicate IsVisitedCondition(condition: string) {
    |condition| >= |VisitedPrefix| && condition[..|VisitedPrefix|] == VisitedPrefix
  }

  /**
   * `evaluateCondition`: no condition (or the empty string) holds; `visited:X`
   * holds when X is in the history; any other condition is the checker's answer,
   * or false when no checker is set.
   */
  function EvaluateCondition(condition: Option<string>, history: seq<string>, checker: FlagChecker): bool {
    match condition
    case None => true
    case Some(c) =>
      if c == "" then true
      else if IsVisitedCondition(c) then c[|VisitedPrefix|..] in history
      else if checker.Some? then checker.value(c)
      else false
  }

  /** Whether a choice passes its condition in the given history. */
  function Passes(history: seq<string>, checker: FlagChecker): DialogueChoice -> bool {
    (c: DialogueChoice) => EvaluateCondition(c.condition, history, checker)
  }

  /** `getAvailableChoices`: the current node's choices that pass their conditions. */
  function AvailableChoices(e: Engine, checker: FlagChecker): seq<DialogueChoice> {
    match CurrentNode(e)
    case None => []
    case Some(node) =>
      match node.choices
      case None => []
      case Some(cs) => Filter(cs, Passes(e.session.history, checker))
  }

  /** `addNode`: stores the node under its id, replacing any node with that id. */
  function AddNodeStep(e: Engine, node: DialogueNode): Engine {
    e.(nodes := e.nodes[node.id := node])
  }

  /** `removeNode`. */
  function RemoveNodeStep(e: Engine, id: string): Engine {
    e.(nodes := e.nodes - {id})
  }

  /** `startDialogue`: silently ignored for an unknown id. */
  function StartDialogueStep(e: Engine, nodeId: string): Step {
    if nodeId !in e.nodes then Step(e, [])
    else
      Step(e.(session := DialogueState(Some(nodeId), Insert(e.session.history, nodeId), true)),
           [Started(e.nodes[nodeId])])
  }

  /** `endDialogue`: only an active session ends, and only then is an event emitted. */
  function EndDialogueStep(e: Engine): Step {
    if !e.session.isActive then Step(e, [])
    else Step(e.(session := e.session.(isActive := false, currentNodeId := None)), [Ended])
  }

  /**
   * `selectChoice`: follows the `index`-th available choice through its
   * `nextNodeId`, and does nothing when there is no current node, the index is
   * out of range, or the target is missing from the table.
   */
  function SelectChoiceStep(e: Engine, checker: FlagChecker, index: int): Step {
    match CurrentNode(e)
    case None => Step(e, [])
    case Some(current) =>
      if current.choices.None? then Step(e, [])
      else
        var available := AvailableChoices(e, checker);
        if index < 0 || index >= |available| then Step(e, [])
        else
          var target := available[index].nextNodeId;
          if target.None? || target.value !in e.nodes then Step(e, [])
          else
            Step(e.(session := e.session.(currentNodeId := target,
                                          history := Insert(e.session.history, target.value))),
                 [NodeChanged(e.nodes[target.value], current)])
  }

  /** `clearHistory`. */
  function ClearHistoryStep(e: Engine): Engine {
    e.(session := e.session.(history := []))
  }

  /** `importState`: the session becomes exactly the given state. */
  function ImportStateStep(e: Engine, state: DialogueState): Engine {
    e.(session := state)
  }

  /** `dispose`: ends the session, then empties the table and the history. */
  function DisposeStep(e: Engine): Step {
    var ended := EndDialogueStep(e);
    Step(Engine(map[], ended.engine.session.(history := [])), ended.events)
  }

  /** The operations of the interpreter, for reasoning about whole runs. */
  datatype Op =
    | AddNodeOp(node: DialogueNode)
    | RemoveNodeOp(id: string)
    | StartOp(nodeId: string)
    | EndOp
    | SelectOp(index: int)
    | ClearHistoryOp
    | ImportOp(state: DialogueState)
    | SetFlagCheckerOp(f: string -> bool)
    | DisposeOp

  function Apply(e: Engine, checker: FlagChecker, op: Op): Step {
    match op
    case AddNodeOp(n) => Step(AddNodeStep(e, n), [])
    case RemoveNodeOp(id) => Step(RemoveNodeStep(e, id), [])
    case StartOp(id) => StartDialogueStep(e, id)
    case EndOp => EndDialogueStep(e)
    case SelectOp(i) => SelectChoiceStep(e, checker, i)
    case ClearHistoryOp => Step(ClearHistoryStep(e), [])
    case ImportOp(s) => Step(ImportStateStep(e, s), [])
    case SetFlagCheckerOp(_) => Step(e, [])
    case DisposeOp => DisposeStep(e)
  }

  function ApplyChecker(checker: FlagChecker, op: Op): FlagChecker {
    match op
    case SetFlagCheckerOp(f) => Some(f)
    case DisposeOp => None
    case _ => checker
  }

  /** The state after performing `ops` in order. */
  function Run(e: Engine, checker: FlagChecker, ops: seq<Op>): Engine
    decreases |ops|
  {
    if ops == [] then e
    else Run(Apply(e, checker, ops[0]).engine, ApplyChecker(checker, ops[0]), ops[1..])
  }

  // ---------------------------------------------------------------------------
  // Properties of the interpreter

  /** Starting at an unknown id changes nothing and emits nothing. */
  lemma StartUnknownIsNoOp(e: Engine, nodeId: string)
    requires nodeId !in e.nodes
    ensures StartDialogueStep(e, nodeId) == Step(e, [])
  {
  }

  /** Starting at a known id makes it current and active, records it once, and announces it. */
  lemma StartKnown(e: Engine, nodeId: string)
    requires nodeId in e.nodes
    ensures var r := StartDialogueStep(e, nodeId);
      && r.engine.nodes == e.nodes
      && r.engine.session.currentNodeId == Some(nodeId)
      && r.engine.session.isActive
      && (nodeId in e.session.history ==> r.engine.session.history == e.session.history)
      && (nodeId !in e.session.history ==> r.engine.session.history == e.session.history + [nodeId])
      && r.events == [Started(e.nodes[nodeId])]
  {
  }

  /** Ending clears the current node and the active flag; ending an inactive session does nothing. */
  lemma EndSpec(e: Engine)
    ensures var r := EndDialogueStep(e);
      && !r.engine.session.isActive
      && r.engine.session.currentNodeId == (if e.session.isActive then None else e.session.currentNodeId)
      && r.engine.session.history == e.session.history
      && r.engine.nodes == e.nodes
      && (r.events == [] <==> !e.session.isActive)
    ensures EndDialogueStep(EndDialogueStep(e).engine) == Step(EndDialogueStep(e).engine, [])
  {
  }

  /** Selection with no current node, or with an index outside the available choices, is a no-op. */
  lemma SelectOutOfRangeIsNoOp(e: Engine, checker: FlagChecker, index: int)
    requires CurrentNode(e).None? || index < 0 || index >= |AvailableChoices(e, checker)|
    ensures SelectChoiceStep(e, checker, index) == Step(e, [])
  {
  }

  /**
   * A selection moves exactly when the chosen available choice names, in
   * `nextNodeId`, a node of the table; it then makes that node current, appends
   * it to the history if absent, keeps the active flag, and announces the move.
   * Any other selection, including a choice that carries only `nextId`, changes nothing.
   */
  lemma SelectSpec(e: Engine, checker: FlagChecker, index: int)
    ensures var r := SelectChoiceStep(e, checker, index);
      var available := AvailableChoices(e, checker);
      var moves := CurrentNode(e).Some? && 0 <= index < |available|
                   && available[index].nextNodeId.Some? && available[index].nextNodeId.value in e.nodes;
      && r.engine.nodes == e.nodes
      && r.engine.session.isActive == e.session.isActive
      && (!moves ==> r == Step(e, []))
      && (moves ==>
            var t := available[index].nextNodeId.value;
            && r.engine.session.currentNodeId == Some(t)
            && r.engine.session.history == Insert(e.session.history, t)
            && r.events == [NodeChanged(e.nodes[t], CurrentNode(e).value)])
  {
  }

  /** A choice that names its target only in `nextId` is never followed. */
  lemma {:induction false} NextIdOnlyIsNotFollowed(e: Engine, checker: FlagChecker, index: int)
    requires CurrentNode(e).Some? && 0 <= index < |AvailableChoices(e, checker)|
    requires AvailableChoices(e, checker)[index].nextNodeId.None?
    ensures SelectChoiceStep(e, checker, index) == Step(e, [])
  {
    SelectSpec(e, checker, index);
  }

  /**
   * The available choices are the current node's choices that pass their
   * conditions, in their original order. A node without a choices list has
   * none, like a node with an empty one.
   */
  lemma {:induction false} AvailableChoicesSpec(e: Engine, checker: FlagChecker)
    ensures CurrentNode(e).None? ==> AvailableChoices(e, checker) == []
    ensures CurrentNode(e).Some? && CurrentNode(e).value.choices.None? ==> AvailableChoices(e, checker) == []
    ensures CurrentNode(e).Some? && CurrentNode(e).value.choices.Some? ==>
      var cs := CurrentNode(e).value.choices.value;
      var r := AvailableChoices(e, checker);
      && IsSubsequence(r, cs)
      && (forall i :: 0 <= i < |cs| ==> (cs[i] in r <==> EvaluateCondition(cs[i].condition, e.session.history, checker)))
      && (forall i :: 0 <= i < |r| ==> EvaluateCondition(r[i].condition, e.session.history, checker))
  {
    match CurrentNode(e)
    case None =>
    case Some(node) =>
      if node.choices.Some? {
        FilterIsSubsequence(node.choices.value, Passes(e.session.history, checker));
      }
  }

  /** `visited:X` holds exactly when X has been visited. */
  lemma {:induction false} VisitedCondition(id: string, history: seq<string>, checker: FlagChecker)
    ensures EvaluateCondition(Some(VisitedPrefix + id), history, checker) <==> id in history
  {
    var c := VisitedPrefix + id;
    assert c[..|VisitedPrefix|] == VisitedPrefix;
    assert c[|VisitedPrefix|..] == id;
  }

  /** Any other non-empty condition is the checker's answer, and false without a checker. */
  lemma FlagCondition(c: string, history: seq<string>, checker: FlagChecker)
    requires c != "" && !IsVisitedCondition(c)
    ensures checker.None? ==> !EvaluateCondition(Some(c), history, checker)
    ensures checker.Some? ==> (EvaluateCondition(Some(c), history, checker) <==> checker.value(c))
  {
  }

  /** Every operation keeps the node table keyed by id. */
  lemma ApplyKeepsKeyedById(e: Engine, checker: FlagChecker, op: Op)
    requires KeyedById(e.nodes)
    ensures KeyedById(Apply(e, checker, op).engine.nodes)
  {
  }

  /** One operation keeps the history free of duplicates, unless it imports one that has them. */
  lemma ApplyKeepsNoDup(e: Engine, checker: FlagChecker, op: Op)
    requires NoDup(e.session.history)
    requires op.ImportOp? ==> NoDup(op.state.history)
    ensures NoDup(Apply(e, checker, op).engine.session.history)
  {
  }

  /** Any run keeps the history free of duplicates, as long as every imported history is. */
  lemma {:induction false} RunKeepsNoDup(e: Engine, checker: FlagChecker, ops: seq<Op>)
    requires NoDup(e.session.history)
    requires forall i :: 0 <= i < |ops| ==> ops[i].ImportOp? ==> NoDup(ops[i].state.history)
    ensures NoDup(Run(e, checker, ops).session.history)
    decreases |ops|
  {
    if ops != [] {
      ApplyKeepsNoDup(e, checker, ops[0]);
      RunKeepsNoDup(Apply(e, checker, ops[0]).engine, ApplyChecker(checker, ops[0]), ops[1..]);
    }
  }

  /** Operations that do not reset the history keep it in first-visit order: it only grows at the end. */
  predicate KeepsHistory(op: Op) {
    !op.ClearHistoryOp? && !op.ImportOp? && !op.DisposeOp?
  }

  lemma {:induction false} RunExtendsHistory(e: Engine, checker: FlagChecker, ops: seq<Op>)
    requires forall i :: 0 <= i < |ops| ==> KeepsHistory(ops[i])
    ensures e.session.history <= Run(e, checker, ops).session.history
    decreases |ops|
  {
    if ops != [] {
      var next := Apply(e, checker, ops[0]).engine;
      assert e.session.history <= next.session.history;
      RunExtendsHistory(next, ApplyChecker(checker, ops[0]), ops[1..]);
    }
  }

  /** Selection never clears the active flag, whatever the run of selections. */
  lemma {:induction false} SelectionsKeepActive(e: Engine, checker: FlagChecker, ops: seq<Op>)
    requires forall i :: 0 <= i < |ops| ==> ops[i].SelectOp?
    ensures Run(e, checker, ops).session.isActive == e.session.isActive
    decreases |ops|
  {
    if ops != [] {
      SelectSpec(e, checker, ops[0].index);
      SelectionsKeepActive(Apply(e, checker, ops[0]).engine, checker, ops[1..]);
    }
  }

  /** Importing an exported session reproduces it exactly. */
  lemma ExportImportRoundTrip(e: Engine, into: Engine)
    ensures ImportStateStep(into, e.session).session == e.session
    ensures ImportStateStep(into, e.session).nodes == into.nodes
  {
  }

  /** The branching scenario: start, follow choice 0 to a terminal node, then selection does nothing. */
  lemma {:induction false} BranchingScenario()
    ensures
      var start := DialogueNode("start", None, "", Some([DialogueChoice("A", Some("nodeA"), None, None),
                                                         DialogueChoice("B", Some("nodeB"), None, None)]), None);
      var nodeA := DialogueNode("nodeA", None, "", Some([]), None);
      var e0 := AddNodeStep(AddNodeStep(Initial, start), nodeA);
      var e1 := StartDialogueStep(e0, "start").engine;
      var e2 := SelectChoiceStep(e1, None, 0).engine;
      && e1.session.currentNodeId == Some("start")
      && e2.session.currentNodeId == Some("nodeA")
      && e2.session.history == ["start", "nodeA"]
      && SelectChoiceStep(e2, None, 0) == Step(e2, [])
  {
    var start := DialogueNode("start", None, "", Some([DialogueChoice("A", Some("nodeA"), None, None),
                                                       DialogueChoice("B", Some("nodeB"), None, None)]), None);
    var nodeA := DialogueNode("nodeA", None, "", Some([]), None);
    var e0 := AddNodeStep(AddNodeStep(Initial, start), nodeA);
    assert "start" in e0.nodes && e0.nodes["start"] == start;
    var e1 := StartDialogueStep(e0, "start").engine;
    assert CurrentNode(e1) == Some(start);
    var cs := start.choices.value;
    assert Filter(cs, Passes(e1.session.history, None)) == cs by {
      assert Filter(cs[1..], Passes(e1.session.history, None)) == cs[1..];
    }
    assert AvailableChoices(e1, None) == cs;
    var e2 := SelectChoiceStep(e1, None, 0).engine;
    assert e2.session.currentNodeId == Some("nodeA");
    assert CurrentNode(e2) == Some(nodeA);
  }

  /**
   * The filtering scenario: of an unconditioned choice, a choice gated on an
   * unset flag and one gated on an unvisited node, only the first is available.
   */
  lemma {:induction false} FilteringScenario()
    ensures
      var always := DialogueChoice("Always available", Some("always"), None, None);
      var flagged := DialogueChoice("Requires flag", Some("flagged"), None, Some("test_flag"));
      var visited := DialogueChoice("Requires visited node", Some("visited"), None, Some("visited:other_node"));
      var node := DialogueNode("conditional_test", None, "", Some([always, flagged, visited]), None);
      var e := StartDialogueStep(AddNodeStep(Initial, node), "conditional_test").engine;
      AvailableChoices(e, None) == [always]
  {
    var always := DialogueChoice("Always available", Some("always"), None, None);
    var flagged := DialogueChoice("Requires flag", Some("flagged"), None, Some("test_flag"));
    var visited := DialogueChoice("Requires visited node", Some("visited"), None, Some("visited:other_node"));
    var node := DialogueNode("conditional_test", None, "", Some([always, flagged, visited]), None);
    var e := StartDialogueStep(AddNodeStep(Initial, node), "conditional_test").engine;
    assert e.session.history == ["conditional_test"];
    assert !IsVisitedCondition("test_flag") by {
      assert "test_flag"[..|VisitedPrefix|] != VisitedPrefix by {
        assert "test_flag"[0] != VisitedPrefix[0];
      }
    }
    assert IsVisitedCondition("visited:other_node") by {
      assert "visited:other_node"[..|VisitedPrefix|] == VisitedPrefix;
    }
    assert "visited:other_node"[|VisitedPrefix|..] == "other_node";
    assert "other_node" !in e.session.history;
    var p := Passes(e.session.history, None);
    var cs := [always, flagged, visited];
    assert Filter(cs[2..], p) == [];
    assert Filter(cs[1..], p) == [];
    assert Filter(cs, p) == [always];
  }

  // ---------------------------------------------------------------------------
  // The stateful interpreter

  class DialogueSystem {
    var nodes: map<string, DialogueNode>
    var currentNodeId: Option<string>
    var history: seq<string>
    var isActiveFlag: bool
    var eventListeners: ListenerTable<DialogueEventType>
    var flagChecker: FlagChecker
    /** Every callback invocation so far, in order. */
    var log: seq<Delivery<DialogueEvent>>

    /** The interpreter's state as a value. */
    function State(): Engine
      reads this
    {
      Engine(nodes, DialogueState(currentNodeId, history, isActiveFlag))
    }

    ghost predicate Valid()
      reads this
    {
      KeyedById(nodes)
    }

    constructor ()
      ensures Valid() && State() == Initial
      ensures eventListeners == map[DialogueStart := [], DialogueEnd := [], NodeChange := []]
      ensures flagChecker == None && log == []
    {
      nodes := map[];
      currentNodeId := None;
      history := [];
      isActiveFlag := false;
      eventListeners := map[DialogueStart := [], DialogueEnd := [], NodeChange := []];
      flagChecker := None;
      log := [];
    }

    method AddNode(node: DialogueNode)
      requires Valid()
      modifies this
      ensures Valid()
      ensures nodes == old(nodes)[node.id := node]
      ensures State().session == old(State().session) && log == old(log)
      ensures eventListeners == old(eventListeners) && flagChecker == old(flagChecker)
    {
      nodes := nodes[node.id := node];
    }

    /** `getNode`: the node stored under `id`, which carries that id. */
    function GetNode(id: string): (r: Option<DialogueNode>)
      reads this
      requires Valid()
      ensures r.Some? <==> id in nodes
      ensures r.Some? ==> r.value == nodes[id] && r.value.id == id
    {
      if id in nodes then Some(nodes[id]) else None
    }

    method RemoveNode(id: string)
      requires Valid()
      modifies this
      ensures Valid()
      ensures nodes == old(nodes) - {id}
      ensures State().session == old(State().session) && log == old(log)
      ensures eventListeners == old(eventListeners) && flagChecker == old(flagChecker)
    {
      nodes := nodes - {id};
    }

    /**
     * Replaces the node table by an empty one. The source's DialogueManager
     * calls `clearNodes`, which the source's DialogueSystem does not define;
     * this is the operation it evidently intends.
     */
    method ClearNodes()
      modifies this
      ensures Valid() && nodes == map[]
      ensures State().session == old(State().session) && log == old(log)
      ensures eventListeners == old(eventListeners) && flagChecker == old(flagChecker)
    {
      nodes := map[];
    }

    method StartDialogue(nodeId: string)
      requires Valid()
      modifies this
      ensures Valid()
      ensures State() == StartDialogueStep(old(State()), nodeId).engine
      ensures log == old(log) + Publish(eventListeners, KindOf, StartDialogueStep(old(State()), nodeId).events)
      ensures eventListeners == old(eventListeners) && flagChecker == old(flagChecker)
    {
      if nodeId in nodes {
        var node := nodes[nodeId];
        currentNodeId := Some(nodeId);
        isActiveFlag := true;
        history := Insert(history, nodeId);
        log := log + Publish(eventListeners, KindOf, [Started(node)]);
      }
    }

    method EndDialogue()
      requires Valid()
      modifies this
      ensures Valid()
      ensures State() == EndDialogueStep(old(State())).engine
      ensures log == old(log) + Publish(eventListeners, KindOf, EndDialogueStep(old(State())).events)
      ensures eventListeners == old(eventListeners) && flagChecker == old(flagChecker)
    {
      if isActiveFlag {
        isActiveFlag := false;
        currentNodeId := None;
        log := log + Publish(eventListeners, KindOf, [Ended]);
      }
    }

    method SelectChoice(choiceIndex: int)
      requires Valid()
      modifies this
      ensures Valid()
      ensures State() == SelectChoiceStep(old(State()), old(flagChecker), choiceIndex).engine
      ensures log == old(log) + Publish(eventListeners, KindOf, SelectChoiceStep(old(State()), old(flagChecker), choiceIndex).events)
      ensures eventListeners == old(eventListeners) && flagChecker == old(flagChecker)
    {
      var current := GetCurrentNode();
      if current.None? || current.value.choices.None? {
        return;
      }
      var available := GetAvailableChoices();
      if choiceIndex < 0 || choiceIndex >= |available| {
        return;
      }
      var target := available[choiceIndex].nextNodeId;
      if target.Some? && target.value in nodes {
        var next := nodes[target.value];
        currentNodeId := target;
        history := Insert(history, target.value);
        log := log + Publish(eventListeners, KindOf, [NodeChanged(next, current.value)]);
      }
    }

    /** `isActive`: the session's active flag, which only starting, ending, importing and disposing write. */
    function IsActive(): (r: bool)
      reads this
      ensures r == State().session.isActive
      ensures forall i :: SelectChoiceStep(State(), flagChecker, i).engine.session.isActive == r
    {
      isActiveFlag
    }

    /** `getCurrentNode`: the node under the current id, which carries that id. */
    function GetCurrentNode(): (r: Option<DialogueNode>)
      reads this
      requires Valid()
      ensures r == CurrentNode(State())
      ensures r.Some? ==> currentNodeId == Some(r.value.id) && r.value.id in nodes
    {
      CurrentNode(State())
    }

    /** `getAvailableChoices`: the current node's choices that pass their conditions, in order. */
    function GetAvailableChoices(): (r: seq<DialogueChoice>)
      reads this
      ensures r == AvailableChoices(State(), flagChecker)
      ensures forall i :: 0 <= i < |r| ==> EvaluateCondition(r[i].condition, history, flagChecker)
    {
      AvailableChoices(State(), flagChecker)
    }

    /** `getHistory` returns a copy of the history: the visited node ids in first-visit order. */
    function GetHistory(): (r: seq<string>)
      reads this
      ensures r == State().session.history
      ensures forall id :: id in r <==> HasVisited(id)
    {
      history
    }

    /** `hasVisited`: agrees with the `visited:` condition that choices are filtered by. */
    function HasVisited(nodeId: string): (r: bool)
      reads this
      ensures r <==> nodeId in State().session.history
      ensures r <==> EvaluateCondition(Some(VisitedPrefix + nodeId), history, flagChecker)
    {
      VisitedCondition(nodeId, history, flagChecker);
      nodeId in history
    }

    method ClearHistory()
      requires Valid()
      modifies this
      ensures Valid()
      ensures State() == ClearHistoryStep(old(State())) && log == old(log)
      ensures eventListeners == old(eventListeners) && flagChecker == old(flagChecker)
    {
      history := [];
    }

    method SetFlagChecker(checker: string -> bool)
      requires Valid()
      modifies this
      ensures Valid()
      ensures flagChecker == Some(checker)
      ensures State() == old(State()) && log == old(log) && eventListeners == old(eventListeners)
    {
      flagChecker := Some(checker);
    }

    /** `onDialogueStart`, `onDialogueEnd`, `onNodeChange`: register a listener for `kind`. */
    method AddEventListener(kind: DialogueEventType, l: ListenerId)
      requires Valid()
      modifies this
      ensures Valid()
      ensures eventListeners == Subscribe(old(eventListeners), kind, l)
      ensures State() == old(State()) && log == old(log) && flagChecker == old(flagChecker)
    {
      eventListeners := Subscribe(eventListeners, kind, l);
    }

    method RemoveListener(kind: DialogueEventType, l: ListenerId)
      requires Valid()
      modifies this
      ensures Valid()
      ensures eventListeners == Unsubscribe(old(eventListeners), kind, l)
      ensures State() == old(State()) && log == old(log) && flagChecker == old(flagChecker)
    {
      eventListeners := Unsubscribe(eventListeners, kind, l);
    }

    /** `exportState`: a copy of the session. */
    function ExportState(): (r: DialogueState)
      reads this
      ensures ImportStateStep(Initial, r).session == State().session
    {
      DialogueState(currentNodeId, history, isActiveFlag)
    }

    method ImportState(state: DialogueState)
      requires Valid()
      modifies this
      ensures Valid()
      ensures State() == ImportStateStep(old(State()), state) && log == old(log)
      ensures eventListeners == old(eventListeners) && flagChecker == old(flagChecker)
    {
      currentNodeId := state.currentNodeId;
      history := state.history;
      isActiveFlag := state.isActive;
    }

    /** `getAllNodes`: every stored node once (in an order the model leaves open). */
    method GetAllNodes() returns (all: seq<DialogueNode>)
      requires Valid()
      ensures |all| == |nodes|
      ensures forall i :: 0 <= i < |all| ==> all[i].id in nodes && nodes[all[i].id] == all[i]
      ensures forall k :: k in nodes ==> nodes[k] in all
    {
      all := [];
      var remaining := nodes.Keys;
      while remaining != {}
        invariant remaining <= nodes.Keys
        invariant |all| + |remaining| == |nodes.Keys|
        invariant forall i :: 0 <= i < |all| ==> all[i].id in nodes && all[i].id !in remaining && nodes[all[i].id] == all[i]
        invariant forall k :: k in nodes && k !in remaining ==> nodes[k] in all
        decreases |remaining|
      {
        var k :| k in remaining;
        all := all + [nodes[k]];
        remaining := remaining - {k};
      }
      assert |nodes.Keys| == |nodes|;
    }

    function GetNodeCount(): (n: nat)
      reads this
      ensures n == |nodes|
    {
      |nodes|
    }

    /** `dispose`: ends the session, then drops the nodes, the history, every listener and the checker. */
    method Dispose()
      requires Valid()
      modifies this
      ensures Valid()
      ensures State() == DisposeStep(old(State())).engine
      ensures log == old(log) + Publish(old(eventListeners), KindOf, DisposeStep(old(State())).events)
      ensures eventListeners == map[] && flagChecker == None
    {
      EndDialogue();
      nodes := map[];
      history := [];
      eventListeners := map[];
      flagChecker := None;
    }
  }
}
