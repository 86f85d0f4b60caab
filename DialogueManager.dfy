/**
 * The glue between the interactive objects and the dialogue interpreter:
 * loading an object's dialogue graph into the interpreter and starting it at
 * `<objectId>_start`, forwarding choice selections, the digit keys that pick
 * a choice, and hiding the dialogue, which ends the session. Only the state
 * these operations change is modelled; the on-screen presentation is not.
 */
module Manager {
  import opened Wrappers
  import opened Seqs
  import opened Notify
  import opened Interfaces
  import opened DialogueEngine
  import Content = DialogueContent

  /** The manager's state: the interpreter and the object whose dialogue is open. */
  datatype Session = Session(engine: Engine, currentObjectId: Option<string>)

  /** The state after an operation and the interpreter events it emitted, in order. */
  datatype ManagerStep = ManagerStep(session: Session, events: seq<DialogueEvent>)

  /** The state part of `hideDialogueUI`: forget the object, then end the session. */
  function HideStep(s: Session): ManagerStep {
    var ended := EndDialogueStep(s.engine);
    ManagerStep(Session(ended.engine, None), ended.events)
  }

  /** The state part of `updateDialogueDisplay`: with no current node, the dialogue is hidden. */
  function DisplayStep(s: Session): ManagerStep {
    if CurrentNode(s.engine).None? then HideStep(s) else ManagerStep(s, [])
  }

  /** Every graph of the table stores each node under its own id. */
  predicate GraphsKeyedById(objectDialogues: map<string, Content.Graph>) {
    forall o :: o in objectDialogues ==> KeyedById(objectDialogues[o])
  }

  /** The authored graphs are all keyed by id. */
  lemma {:induction false} AllDialogueKeyedById()
    ensures GraphsKeyedById(Content.AllDialogue())
  {
    forall o | o in Content.AllDialogue() ensures KeyedById(Content.AllDialogue()[o]) {
      Content.AllDialogueWellFormed(o);
    }
  }

  /** Clearing the node table and adding every node of a graph keyed by id leaves exactly that graph (LoadGraphIsAddEach). */
  function LoadGraph(e: Engine, g: Content.Graph): Engine {
    e.(nodes := g)
  }

  /** `addNode` for each node in turn, in the order given. */
  function AddEach(e: Engine, nodes: seq<DialogueNode>): Engine
    decreases |nodes|
  {
    if nodes == [] then e else AddEach(AddNodeStep(e, nodes[0]), nodes[1..])
  }

  function Ids(nodes: seq<DialogueNode>): set<string> {
    set i | 0 <= i < |nodes| :: nodes[i].id
  }

  /** Adding nodes of a graph keyed by id overwrites exactly their ids, each with the graph's node. */
  lemma {:induction false} AddEachFrom(e: Engine, g: Content.Graph, nodes: seq<DialogueNode>)
    requires KeyedById(g)
    requires forall i :: 0 <= i < |nodes| ==> nodes[i].id in g && g[nodes[i].id] == nodes[i]
    ensures AddEach(e, nodes) == e.(nodes := e.nodes + map k | k in Ids(nodes) :: g[k])
    decreases |nodes|
  {
    if nodes != [] {
      var e1 := AddNodeStep(e, nodes[0]);
      AddEachFrom(e1, g, nodes[1..]);
      assert Ids(nodes) == {nodes[0].id} + Ids(nodes[1..]) by {
        forall k | k in Ids(nodes) ensures k in {nodes[0].id} + Ids(nodes[1..]) {
          var i :| 0 <= i < |nodes| && nodes[i].id == k;
          if i > 0 {
            assert nodes[1..][i - 1].id == k;
          }
        }
        forall k | k in Ids(nodes[1..]) ensures k in Ids(nodes) {
          var i :| 0 <= i < |nodes[1..]| && nodes[1..][i].id == k;
          assert nodes[i + 1].id == k;
        }
      }
      var m1 := map k | k in Ids(nodes[1..]) :: g[k];
      assert (map k | k in Ids(nodes) :: g[k]) == m1[nodes[0].id := nodes[0]];
      UpdateThenUnion(e.nodes, m1, nodes[0].id, nodes[0]);
    }
  }

  lemma UpdateThenUnion<K, V>(a: map<K, V>, m: map<K, V>, k: K, v: V)
    requires k in m ==> m[k] == v
    ensures a[k := v] + m == a + m[k := v]
  {
  }

  /**
   * The loading loop of `startObjectDialogue`: after the table is emptied,
   * adding every node of a graph keyed by id, in any order and even more than
   * once, leaves exactly that graph.
   */
  lemma {:induction false} LoadGraphIsAddEach(e: Engine, g: Content.Graph, nodes: seq<DialogueNode>)
    requires KeyedById(g)
    requires forall i :: 0 <= i < |nodes| ==> nodes[i].id in g && g[nodes[i].id] == nodes[i]
    requires forall k :: k in g ==> g[k] in nodes
    ensures AddEach(e.(nodes := map[]), nodes) == LoadGraph(e, g)
  {
    AddEachFrom(e.(nodes := map[]), g, nodes);
    assert Ids(nodes) == g.Keys by {
      forall k | k in g ensures k in Ids(nodes) {
        var i :| 0 <= i < |nodes| && nodes[i] == g[k];
      }
    }
    assert map[] + (map k | k in Ids(nodes) :: g[k]) == g;
  }

  /**
   * `startObjectDialogue` with the node table replaced by the object's graph:
   * nothing happens for an object without a graph; otherwise the graph is
   * loaded, the object becomes current, the interpreter starts at
   * `<objectId>_start`, and the display is updated.
   */
  function StartObjectStep(s: Session, objectDialogues: map<string, Content.Graph>, objectId: string): ManagerStep {
    if objectId !in objectDialogues then ManagerStep(s, [])
    else
      var started := StartDialogueStep(LoadGraph(s.engine, objectDialogues[objectId]), Content.StartId(objectId));
      var shown := DisplayStep(Session(started.engine, Some(objectId)));
      ManagerStep(shown.session, started.events + shown.events)
  }

  /** `selectChoice`: the interpreter's selection, then the display update. */
  function SelectStep(s: Session, checker: FlagChecker, index: int): ManagerStep {
    var selected := SelectChoiceStep(s.engine, checker, index);
    var shown := DisplayStep(s.(engine := selected.engine));
    ManagerStep(shown.session, selected.events + shown.events)
  }

  /** Whether `selectChoice` leaves the session inactive, which schedules a delayed hide. */
  predicate HideScheduledAfter(s: Session, checker: FlagChecker, index: int) {
    !SelectStep(s, checker, index).session.engine.session.isActive
  }

  // ---------------------------------------------------------------------------
  // The number keys

  /** JavaScript's `a <= b` on strings: lexicographic order of the characters. */
  predicate StrLe(a: string, b: string)
    decreases |a|
  {
    a == [] || (b != [] && (a[0] < b[0] || (a[0] == b[0] && StrLe(a[1..], b[1..]))))
  }

  predicate IsDigit(c: char) {
    '0' <= c <= '9'
  }

  /** The value of the decimal digits that `s` starts with, read after the digits in `acc`. */
  function LeadingValue(s: string, acc: nat): (r: nat)
    ensures r >= acc
    ensures s == [] || !IsDigit(s[0]) ==> r == acc
    ensures s != [] && IsDigit(s[0]) ==> r >= acc * 10 + (s[0] as int - '0' as int)
    decreases |s|
  {
    if s != [] && IsDigit(s[0]) then LeadingValue(s[1..], acc * 10 + (s[0] as int - '0' as int)) else acc
  }

  /** `parseInt(key)` for a key that starts with a digit. */
  function ParseLeadingInt(key: string): nat {
    LeadingValue(key, 0)
  }

  /** `key >= '1' && key <= '9'`. */
  predicate InDigitRange(key: string) {
    StrLe("1", key) && StrLe(key, "9")
  }

  /**
   * The choice index the keyboard handler selects for `key` when `available`
   * choices are on offer: `parseInt(key) - 1`, when the key lies between '1'
   * and '9' and the index is below the number of choices.
   */
  function DigitChoice(key: string, available: nat): (r: Option<nat>)
    ensures r.Some? ==> r.value < available && InDigitRange(key)
  {
    if InDigitRange(key) && ParseLeadingInt(key) >= 1 && ParseLeadingInt(key) - 1 < available
    then Some(ParseLeadingInt(key) - 1)
    else None
  }

  /**
   * A single-character key picks index k-1 exactly when it is a digit k from
   * 1 to 9 and k-1 is below the number of available choices.
   */
  lemma {:induction false} DigitKeySpec(c: char, available: nat)
    ensures '1' <= c <= '9' && (c as int - '1' as int) < available ==>
      DigitChoice([c], available) == Some(c as int - '1' as int)
    ensures !('1' <= c <= '9') || (c as int - '1' as int) >= available ==> DigitChoice([c], available) == None
  {
    var key := [c];
    assert key[1..] == [];
    assert "1"[1..] == [] && "9"[1..] == [];
    assert InDigitRange(key) <==> '1' <= c <= '9';
    if '1' <= c <= '9' {
      assert LeadingValue(key[1..], c as int - '0' as int) == c as int - '0' as int;
      assert ParseLeadingInt(key) == c as int - '0' as int;
    }
  }

  /** The keys the browser names, such as "Escape" or "Enter", never select a choice. */
  lemma EscapeSelectsNothing(available: nat)
    ensures DigitChoice("Escape", available) == None
    ensures DigitChoice("Enter", available) == None
  {
    assert !StrLe("Escape", "9");
    assert !StrLe("Enter", "9");
  }

  /** The keyboard handler of `setupKeyboardNavigation`: a digit selects, Escape hides. */
  function NavigationKeyStep(s: Session, checker: FlagChecker, key: string): ManagerStep {
    match DigitChoice(key, |AvailableChoices(s.engine, checker)|)
    case Some(i) => SelectStep(s, checker, i)
    case None => if key == "Escape" then HideStep(s) else ManagerStep(s, [])
  }

  /** The keyboard handler of `setupCloseOnE`: `e` or `E` hides. */
  function CloseKeyStep(s: Session, key: string): ManagerStep {
    if key == "e" || key == "E" then HideStep(s) else ManagerStep(s, [])
  }

  // ---------------------------------------------------------------------------
  // Properties of the glue

  /** An object without a graph starts nothing: the session and the current object are untouched. */
  lemma StartWithoutGraph(s: Session, objectDialogues: map<string, Content.Graph>, objectId: string)
    requires objectId !in objectDialogues
    ensures StartObjectStep(s, objectDialogues, objectId) == ManagerStep(s, [])
  {
  }

  /**
   * An object with a graph whose start node exists: the graph replaces the
   * node table, the object becomes current, and the session is active at
   * `<objectId>_start`, which the history records once.
   */
  lemma StartWithGraph(s: Session, objectDialogues: map<string, Content.Graph>, objectId: string)
    requires objectId in objectDialogues && KeyedById(objectDialogues[objectId])
    requires Content.StartId(objectId) in objectDialogues[objectId]
    requires Content.StartId(objectId) != ""
    ensures var r := StartObjectStep(s, objectDialogues, objectId);
      var start := Content.StartId(objectId);
      && r.session.engine.nodes == objectDialogues[objectId]
      && r.session.currentObjectId == Some(objectId)
      && r.session.engine.session.currentNodeId == Some(start)
      && r.session.engine.session.isActive
      && r.session.engine.session.history == Insert(s.engine.session.history, start)
      && r.events == [Started(objectDialogues[objectId][start])]
  {
  }

  /**
   * An object with a graph but no start node: the call still reports success,
   * the graph is loaded, nothing starts, and when no node is current the
   * dialogue is hidden, which forgets the object and ends the session.
   */
  lemma StartWithoutStartNode(s: Session, objectDialogues: map<string, Content.Graph>, objectId: string)
    requires objectId in objectDialogues && KeyedById(objectDialogues[objectId])
    requires Content.StartId(objectId) !in objectDialogues[objectId]
    ensures var r := StartObjectStep(s, objectDialogues, objectId);
      var loaded := LoadGraph(s.engine, objectDialogues[objectId]);
      && r.session.engine.nodes == objectDialogues[objectId]
      && r.session.engine.session.history == s.engine.session.history
      && (CurrentNode(loaded).Some? ==> r == ManagerStep(Session(loaded, Some(objectId)), []))
      && (CurrentNode(loaded).None? ==>
            && r.session.currentObjectId == None
            && !r.session.engine.session.isActive
            && r.events == EndDialogueStep(loaded).events)
  {
  }

  /** Each of the authored objects starts at its own start node, with its own graph loaded. */
  lemma {:induction false} AuthoredObjectsStart(s: Session, objectId: string)
    requires objectId in Content.ObjectIds
    ensures var r := StartObjectStep(s, Content.AllDialogue(), objectId);
      && r.session.engine.nodes == Content.AllDialogue()[objectId]
      && r.session.currentObjectId == Some(objectId)
      && r.session.engine.session.currentNodeId == Some(objectId + "_start")
      && r.session.engine.session.isActive
      && KeyedById(r.session.engine.nodes)
  {
    assert objectId in Content.AllDialogue();
    Content.AllDialogueWellFormed(objectId);
    StartWithGraph(s, Content.AllDialogue(), objectId);
  }

  /**
   * Hiding, by Escape, by `e`/`E` or by the continue button, forgets the
   * object and leaves the session inactive without a current node; an
   * already inactive session keeps its current node and hears no event.
   */
  lemma HideSpec(s: Session)
    ensures var r := HideStep(s);
      && r.session.currentObjectId == None
      && !r.session.engine.session.isActive
      && r.session.engine.nodes == s.engine.nodes
      && r.session.engine.session.history == s.engine.session.history
      && (s.engine.session.isActive ==> r.session.engine.session.currentNodeId == None && r.events == [Ended])
      && (!s.engine.session.isActive ==> r.session.engine == s.engine && r.events == [])
    ensures CloseKeyStep(s, "e") == HideStep(s) && CloseKeyStep(s, "E") == HideStep(s)
  {
  }

  /** Escape hides; a digit key selects only an index below the number of available choices. */
  lemma {:induction false} NavigationKeySpec(s: Session, checker: FlagChecker, key: string)
    ensures key == "Escape" ==> NavigationKeyStep(s, checker, key) == HideStep(s)
    ensures |key| == 1 && '1' <= key[0] <= '9' && (key[0] as int - '1' as int) < |AvailableChoices(s.engine, checker)| ==>
      NavigationKeyStep(s, checker, key) == SelectStep(s, checker, key[0] as int - '1' as int)
    ensures |key| == 1 && !('1' <= key[0] <= '9') ==> NavigationKeyStep(s, checker, key) == ManagerStep(s, [])
    ensures |key| == 1 && '1' <= key[0] <= '9' && (key[0] as int - '1' as int) >= |AvailableChoices(s.engine, checker)| ==>
      NavigationKeyStep(s, checker, key) == ManagerStep(s, [])
  {
    if key == "Escape" {
      EscapeSelectsNothing(|AvailableChoices(s.engine, checker)|);
    }
    if |key| == 1 {
      assert key == [key[0]];
      DigitKeySpec(key[0], |AvailableChoices(s.engine, checker)|);
    }
  }

  /**
   * With a current node and no node stored under the empty id, a selection
   * never ends the session: it keeps the current object and the active flag,
   * so the delayed hide after a selection is scheduled only for a session
   * that was already inactive. A node stored under "" can be selected into,
   * after which no node is current and the display hides the dialogue.
   */
  lemma {:induction false} SelectionNeverEnds(s: Session, checker: FlagChecker, index: int)
    requires CurrentNode(s.engine).Some? && "" !in s.engine.nodes
    ensures var r := SelectStep(s, checker, index);
      && r.session.currentObjectId == s.currentObjectId
      && r.session.engine.session.isActive == s.engine.session.isActive
      && r.session.engine == SelectChoiceStep(s.engine, checker, index).engine
      && r.events == SelectChoiceStep(s.engine, checker, index).events
    ensures HideScheduledAfter(s, checker, index) <==> !s.engine.session.isActive
  {
    SelectSpec(s.engine, checker, index);
    var selected := SelectChoiceStep(s.engine, checker, index);
    assert CurrentNode(selected.engine).Some?;
  }

  /**
   * In a node table where only `phone_start` writes choices with
   * `nextNodeId`, a node other than `phone_start` offers only choices the
   * interpreter does not follow: selecting any of them changes nothing.
   */
  lemma {:induction false} OnlyStartNodeMoves(e: Engine, checker: FlagChecker, index: int)
    requires KeyedById(e.nodes) && Content.NextNodeIdOnlyAt(e.nodes, "phone_start")
    requires CurrentNode(e).Some? && CurrentNode(e).value.id != "phone_start"
    ensures SelectChoiceStep(e, checker, index) == Step(e, [])
  {
    var node := CurrentNode(e).value;
    var id := e.session.currentNodeId.value;
    assert node == e.nodes[id] && node.id == id;
    if 0 <= index < |AvailableChoices(e, checker)| {
      var cs := Content.Choices(node);
      var c := AvailableChoices(e, checker)[index];
      assert node.choices.Some?;
      assert c in cs;
      var j :| 0 <= j < |cs| && cs[j] == c;
      assert c.nextNodeId.None?;
      NextIdOnlyIsNotFollowed(e, checker, index);
    } else {
      SelectOutOfRangeIsNoOp(e, checker, index);
    }
  }

  /** In every authored graph, only the choices of `phone_start` can be followed. */
  lemma {:induction false} OnlyPhoneStartMoves(e: Engine, checker: FlagChecker, objectId: string, index: int)
    requires objectId in Content.AllDialogue() && e.nodes == Content.AllDialogue()[objectId]
    requires CurrentNode(e).Some? && CurrentNode(e).value.id != "phone_start"
    ensures SelectChoiceStep(e, checker, index) == Step(e, [])
  {
    Content.AllDialogueWellFormed(objectId);
    OnlyStartNodeMoves(e, checker, index);
  }

  /**
   * At a node whose choices carry no condition, the `index`-th choice, when it
   * names a non-empty node of the table in `nextNodeId`, is followed: the
   * session moves there, stays active and keeps the current object.
   */
  lemma {:induction false} UnconditionedChoiceMoves(s: Session, checker: FlagChecker, index: int)
    requires CurrentNode(s.engine).Some? && CurrentNode(s.engine).value.choices.Some?
    requires var cs := CurrentNode(s.engine).value.choices.value;
      && (forall i :: 0 <= i < |cs| ==> cs[i].condition.None?)
      && 0 <= index < |cs| && cs[index].nextNodeId.Some?
      && cs[index].nextNodeId.value in s.engine.nodes && cs[index].nextNodeId.value != ""
    ensures var r := SelectStep(s, checker, index).session;
      && r.engine.session.currentNodeId == CurrentNode(s.engine).value.choices.value[index].nextNodeId
      && r.engine.session.isActive == s.engine.session.isActive
      && r.currentObjectId == s.currentObjectId
  {
    var cs := CurrentNode(s.engine).value.choices.value;
    var p := Passes(s.engine.session.history, checker);
    FilterKeepsAll(cs, p);
    assert AvailableChoices(s.engine, checker) == cs;
    SelectSpec(s.engine, checker, index);
    var selected := SelectChoiceStep(s.engine, checker, index);
    assert CurrentNode(selected.engine).Some?;
  }

  /**
   * Starting an object whose start node offers unconditioned choices, the
   * `index`-th one, when it names a non-empty node of the graph in
   * `nextNodeId`, is followed.
   */
  lemma {:induction false} StartThenFollow(s: Session, objectDialogues: map<string, Content.Graph>, objectId: string,
                                           checker: FlagChecker, index: int)
    requires objectId in objectDialogues && KeyedById(objectDialogues[objectId])
    requires Content.StartId(objectId) in objectDialogues[objectId]
    requires var g := objectDialogues[objectId];
      var cs := Content.Choices(g[Content.StartId(objectId)]);
      && g[Content.StartId(objectId)].choices.Some?
      && (forall i :: 0 <= i < |cs| ==> cs[i].condition.None?)
      && 0 <= index < |cs| && cs[index].nextNodeId.Some?
      && cs[index].nextNodeId.value in g && cs[index].nextNodeId.value != ""
    ensures var started := StartObjectStep(s, objectDialogues, objectId).session;
      var r := SelectStep(started, checker, index).session;
      var g := objectDialogues[objectId];
      && r.engine.session.currentNodeId == Content.Choices(g[Content.StartId(objectId)])[index].nextNodeId
      && r.engine.session.isActive
      && r.currentObjectId == Some(objectId)
  {
    var start := Content.StartId(objectId);
    assert start != "" by {
      assert |start| == |objectId| + 6;
    }
    StartWithGraph(s, objectDialogues, objectId);
    var started := StartObjectStep(s, objectDialogues, objectId).session;
    assert CurrentNode(started.engine) == Some(objectDialogues[objectId][start]);
    UnconditionedChoiceMoves(started, checker, index);
  }

  /** Every choice of `phone_start` moves to the node it names. */
  lemma {:induction false} PhoneStartMoves(s: Session, checker: FlagChecker, index: int)
    requires 0 <= index < 3
    ensures var started := StartObjectStep(s, Content.AllDialogue(), "phone").session;
      var r := SelectStep(started, checker, index).session;
      && r.engine.session.currentNodeId == Some(["phone_connected", "phone_peaceful", "phone_anxiety"][index])
      && r.engine.session.isActive
      && r.currentObjectId == Some("phone")
  {
    Content.PhoneStartChoices(index);
    Content.AllDialogueWellFormed("phone");
    StartThenFollow(s, Content.AllDialogue(), "phone", checker, index);
  }

  /** Only the phone's start node is called `phone_start`. */
  lemma StartIdOfOthers(objectId: string)
    requires objectId != "phone"
    ensures Content.StartId(objectId) != "phone_start"
  {
    var start := Content.StartId(objectId);
    assert start[..|objectId|] == objectId;
    assert "phone_start"[..5] == "phone";
  }

  /**
   * Starting an object whose graph writes `nextNodeId` only at `phone_start`,
   * when its start node is another node, any selection there changes nothing.
   */
  lemma {:induction false} StartThenStay(s: Session, objectDialogues: map<string, Content.Graph>, objectId: string,
                                         checker: FlagChecker, index: int)
    requires objectId in objectDialogues && KeyedById(objectDialogues[objectId])
    requires Content.StartId(objectId) in objectDialogues[objectId]
    requires Content.NextNodeIdOnlyAt(objectDialogues[objectId], "phone_start")
    requires objectId != "phone"
    ensures var started := StartObjectStep(s, objectDialogues, objectId).session;
      SelectStep(started, checker, index) == ManagerStep(started, [])
  {
    var start := Content.StartId(objectId);
    assert start != "" by {
      assert |start| == |objectId| + 6;
    }
    StartIdOfOthers(objectId);
    StartWithGraph(s, objectDialogues, objectId);
    var started := StartObjectStep(s, objectDialogues, objectId).session;
    assert CurrentNode(started.engine) == Some(objectDialogues[objectId][start]);
    OnlyStartNodeMoves(started.engine, checker, index);
  }

  /**
   * The objects other than the phone never leave their start node by
   * selection: every choice there is written with `nextId`.
   */
  lemma {:induction false} OtherObjectsStayAtStart(s: Session, checker: FlagChecker, objectId: string, index: int)
    requires objectId in Content.ObjectIds && objectId != "phone"
    ensures var started := StartObjectStep(s, Content.AllDialogue(), objectId).session;
      SelectStep(started, checker, index) == ManagerStep(started, [])
  {
    assert objectId in Content.AllDialogue();
    Content.AllDialogueWellFormed(objectId);
    StartThenStay(s, Content.AllDialogue(), objectId, checker, index);
  }

  // ---------------------------------------------------------------------------
  // The source as written

  /** The outcome of a call that may throw. */
  datatype CallOutcome = Returned(value: bool) | ThrewTypeError(message: string)

  /**
   * `startObjectDialogue` as written: for an object with a graph it calls
   * `clearNodes` on the interpreter, which has no member of that name, so the
   * call throws before any node is loaded or any field is set.
   */
  function StartObjectAsWritten(objectDialogues: map<string, Content.Graph>, objectId: string): CallOutcome {
    if objectId !in objectDialogues then Returned(false)
    else ThrewTypeError("this.dialogueSystem.clearNodes is not a function")
  }

  /** As written, no object's dialogue can ever be started: the phone's start throws. */
  lemma AsWrittenNeverStarts(objectDialogues: map<string, Content.Graph>, objectId: string)
    ensures StartObjectAsWritten(objectDialogues, objectId) != Returned(true)
    ensures StartObjectAsWritten(Content.AllDialogue(), "phone").ThrewTypeError?
  {
    assert "phone" in Content.ObjectIds;
  }

  /** The deliveries of a selection followed by a display update are those of `SelectStep`. */
  lemma {:induction false} SelectLog(before: Session, checker: FlagChecker, index: int, listeners: ListenerTable<DialogueEventType>,
                                     log0: seq<Delivery<DialogueEvent>>, log1: seq<Delivery<DialogueEvent>>, log2: seq<Delivery<DialogueEvent>>)
    requires log1 == log0 + Publish(listeners, KindOf, SelectChoiceStep(before.engine, checker, index).events)
    requires log2 == log1 + Publish(listeners, KindOf, DisplayStep(before.(engine := SelectChoiceStep(before.engine, checker, index).engine)).events)
    ensures log2 == log0 + Publish(listeners, KindOf, SelectStep(before, checker, index).events)
  {
    var selected := SelectChoiceStep(before.engine, checker, index);
    var shown := DisplayStep(before.(engine := selected.engine));
    PublishConcat(listeners, KindOf, selected.events, shown.events);
  }

  /** The deliveries of a start followed by a display update are those of `StartObjectStep`. */
  lemma {:induction false} StartLog(before: Session, objectDialogues: map<string, Content.Graph>, objectId: string,
                                    listeners: ListenerTable<DialogueEventType>,
                                    log0: seq<Delivery<DialogueEvent>>, log1: seq<Delivery<DialogueEvent>>, log2: seq<Delivery<DialogueEvent>>)
    requires objectId in objectDialogues
    requires var started := StartDialogueStep(LoadGraph(before.engine, objectDialogues[objectId]), Content.StartId(objectId));
      && log1 == log0 + Publish(listeners, KindOf, started.events)
      && log2 == log1 + Publish(listeners, KindOf, DisplayStep(Session(started.engine, Some(objectId))).events)
    ensures log2 == log0 + Publish(listeners, KindOf, StartObjectStep(before, objectDialogues, objectId).events)
  {
    var started := StartDialogueStep(LoadGraph(before.engine, objectDialogues[objectId]), Content.StartId(objectId));
    var shown := DisplayStep(Session(started.engine, Some(objectId)));
    PublishConcat(listeners, KindOf, started.events, shown.events);
  }

  // ---------------------------------------------------------------------------
  // The stateful manager

  class DialogueManager {
    const dialogueSystem: DialogueSystem
    const objectDialogues: map<string, Content.Graph>
    var currentObjectId: Option<string>

    function State(): Session
      reads this, dialogueSystem
    {
      Session(dialogueSystem.State(), currentObjectId)
    }

    ghost predicate Valid()
      reads this, dialogueSystem
    {
      dialogueSystem.Valid() && GraphsKeyedById(objectDialogues)
    }

    constructor ()
      ensures Valid() && fresh(dialogueSystem) && objectDialogues == Content.AllDialogue()
      ensures State() == Session(DialogueEngine.Initial, None)
      ensures dialogueSystem.flagChecker == None && dialogueSystem.log == []
    {
      dialogueSystem := new DialogueSystem();
      objectDialogues := Content.AllDialogue();
      currentObjectId := None;
      AllDialogueKeyedById();
    }

    /** `startObjectDialogue`, with the node table replaced by the object's graph. */
    method StartObjectDialogue(objectId: string) returns (started: bool)
      requires Valid()
      modifies this, dialogueSystem
      ensures Valid()
      ensures started <==> objectId in objectDialogues
      ensures State() == StartObjectStep(old(State()), objectDialogues, objectId).session
      ensures dialogueSystem.log == old(dialogueSystem.log)
        + Publish(dialogueSystem.eventListeners, KindOf, StartObjectStep(old(State()), objectDialogues, objectId).events)
      ensures dialogueSystem.eventListeners == old(dialogueSystem.eventListeners)
      ensures dialogueSystem.flagChecker == old(dialogueSystem.flagChecker)
    {
      if objectId !in objectDialogues {
        return false;
      }
      var graph := objectDialogues[objectId];
      ghost var before := old(State());
      dialogueSystem.ClearNodes();
      var remaining := graph.Keys;
      while remaining != {}
        invariant remaining <= graph.Keys
        invariant dialogueSystem.Valid()
        invariant dialogueSystem.nodes == map k | k in graph.Keys - remaining :: graph[k]
        invariant dialogueSystem.State().session == before.engine.session
        invariant dialogueSystem.log == old(dialogueSystem.log)
        invariant dialogueSystem.eventListeners == old(dialogueSystem.eventListeners)
        invariant dialogueSystem.flagChecker == old(dialogueSystem.flagChecker)
        invariant currentObjectId == before.currentObjectId
        decreases |remaining|
      {
        var k :| k in remaining;
        dialogueSystem.AddNode(graph[k]);
        remaining := remaining - {k};
      }
      assert dialogueSystem.State() == LoadGraph(before.engine, graph);
      currentObjectId := Some(objectId);
      ghost var log0 := dialogueSystem.log;
      dialogueSystem.StartDialogue(Content.StartId(objectId));
      ghost var log1 := dialogueSystem.log;
      UpdateDialogueDisplay();
      StartLog(before, objectDialogues, objectId, dialogueSystem.eventListeners, log0, log1, dialogueSystem.log);
      started := true;
    }

    /** `selectChoice`; the result says whether the delayed hide was scheduled. */
    method SelectChoice(choiceIndex: int) returns (hideScheduled: bool)
      requires Valid()
      modifies this, dialogueSystem
      ensures Valid()
      ensures State() == SelectStep(old(State()), old(dialogueSystem.flagChecker), choiceIndex).session
      ensures hideScheduled == HideScheduledAfter(old(State()), old(dialogueSystem.flagChecker), choiceIndex)
      ensures dialogueSystem.log == old(dialogueSystem.log)
        + Publish(dialogueSystem.eventListeners, KindOf, SelectStep(old(State()), old(dialogueSystem.flagChecker), choiceIndex).events)
      ensures dialogueSystem.eventListeners == old(dialogueSystem.eventListeners)
      ensures dialogueSystem.flagChecker == old(dialogueSystem.flagChecker)
    {
      ghost var before := State();
      ghost var log0 := dialogueSystem.log;
      dialogueSystem.SelectChoice(choiceIndex);
      ghost var log1 := dialogueSystem.log;
      UpdateDialogueDisplay();
      SelectLog(before, dialogueSystem.flagChecker, choiceIndex, dialogueSystem.eventListeners, log0, log1, dialogueSystem.log);
      hideScheduled := !dialogueSystem.IsActive();
    }

    /** The state part of `updateDialogueDisplay`. */
    method UpdateDialogueDisplay()
      requires Valid()
      modifies this, dialogueSystem
      ensures Valid()
      ensures State() == DisplayStep(old(State())).session
      ensures dialogueSystem.log == old(dialogueSystem.log) + Publish(dialogueSystem.eventListeners, KindOf, DisplayStep(old(State())).events)
      ensures dialogueSystem.eventListeners == old(dialogueSystem.eventListeners)
      ensures dialogueSystem.flagChecker == old(dialogueSystem.flagChecker)
    {
      var current := dialogueSystem.GetCurrentNode();
      if current.None? {
        HideDialogueUI();
      }
    }

    /** The state part of `hideDialogueUI`. */
    method HideDialogueUI()
      requires Valid()
      modifies this, dialogueSystem
      ensures Valid()
      ensures State() == HideStep(old(State())).session
      ensures dialogueSystem.log == old(dialogueSystem.log) + Publish(dialogueSystem.eventListeners, KindOf, HideStep(old(State())).events)
      ensures dialogueSystem.eventListeners == old(dialogueSystem.eventListeners)
      ensures dialogueSystem.flagChecker == old(dialogueSystem.flagChecker)
    {
      currentObjectId := None;
      dialogueSystem.EndDialogue();
    }

    /** A key press seen by the handler of `setupKeyboardNavigation`. */
    method NavigationKey(key: string) returns (hideScheduled: bool)
      requires Valid()
      modifies this, dialogueSystem
      ensures Valid()
      ensures State() == NavigationKeyStep(old(State()), old(dialogueSystem.flagChecker), key).session
      ensures dialogueSystem.log == old(dialogueSystem.log)
        + Publish(dialogueSystem.eventListeners, KindOf, NavigationKeyStep(old(State()), old(dialogueSystem.flagChecker), key).events)
      ensures dialogueSystem.eventListeners == old(dialogueSystem.eventListeners)
      ensures dialogueSystem.flagChecker == old(dialogueSystem.flagChecker)
    {
      var choices := dialogueSystem.GetAvailableChoices();
      hideScheduled := false;
      match DigitChoice(key, |choices|)
      case Some(i) =>
        hideScheduled := SelectChoice(i);
      case None =>
        if key == "Escape" {
          HideDialogueUI();
        }
    }

    /** A key press seen by the handler of `setupCloseOnE`. */
    method CloseKey(key: string)
      requires Valid()
      modifies this, dialogueSystem
      ensures Valid()
      ensures State() == CloseKeyStep(old(State()), key).session
      ensures dialogueSystem.log == old(dialogueSystem.log) + Publish(dialogueSystem.eventListeners, KindOf, CloseKeyStep(old(State()), key).events)
      ensures dialogueSystem.eventListeners == old(dialogueSystem.eventListeners)
      ensures dialogueSystem.flagChecker == old(dialogueSystem.flagChecker)
    {
      if key == "e" || key == "E" {
        HideDialogueUI();
      }
    }

    /** `isActive`: the interpreter's active flag. */
    function IsActive(): (r: bool)
      reads this, dialogueSystem
      ensures r == State().engine.session.isActive
    {
      dialogueSystem.IsActive()
    }

    /** `getCurrentObjectId`: the object whose dialogue was last started and not hidden since. */
    function GetCurrentObjectId(): (r: Option<string>)
      reads this
      ensures r == currentObjectId
    {
      currentObjectId
    }

    /** `dispose`: disposes of the interpreter; the current object is kept. */
    method Dispose()
      requires Valid()
      modifies dialogueSystem
      ensures Valid()
      ensures dialogueSystem.State() == DisposeStep(old(dialogueSystem.State())).engine
      ensures dialogueSystem.log == old(dialogueSystem.log)
        + Publish(old(dialogueSystem.eventListeners), KindOf, DisposeStep(old(dialogueSystem.State())).events)
      ensures dialogueSystem.eventListeners == map[] && dialogueSystem.flagChecker == None
      ensures currentObjectId == old(currentObjectId)
    {
      dialogueSystem.Dispose();
    }
  }
}
