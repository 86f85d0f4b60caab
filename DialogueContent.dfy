/**
 * The seven authored dialogue graphs, one per interactive object, and the
 * table that maps each object id to its graph. Node prose is abstracted to
 * the empty string; ids, speakers, choice texts and choice targets are as
 * authored. Every choice of `phone_start` names its target in `nextNodeId`;
 * every other choice names it in `nextId`.
 */
module DialogueContent {
  import opened Wrappers
  import opened Interfaces

  /** One object's dialogue, keyed by node id. */
  type Graph = map<string, DialogueNode>

  /** The speaker label of every authored node. */
  const Speaker := "Inner Voice"

  /** A choice written with `nextNodeId`. */
  function Via(text: string, target: string): DialogueChoice {
    DialogueChoice(text, Some(target), None, None)
  }

  /** A choice written with `nextId`. */
  function To(text: string, target: string): DialogueChoice {
    DialogueChoice(text, None, Some(target), None)
  }

  /** An authored node: its own id, the common speaker, prose left out, and a choices array. */
  function Node(id: string, choices: seq<DialogueChoice>): DialogueNode {
    DialogueNode(id, Some(Speaker), "", Some(choices), None)
  }

  /** The start node of an object's graph. */
  function StartId(objectId: string): string {
    objectId + "_start"
  }

  /** A node's choices, with an absent array read as empty. */
  function Choices(n: DialogueNode): seq<DialogueChoice> {
    n.choices.GetOr([])
  }

  /** Every choice names a target, through `nextNodeId || nextId`, that is a node of the same graph. */
  predicate TargetsClosed(g: Graph) {
    forall k :: k in g ==>
      forall i :: 0 <= i < |Choices(g[k])| ==>
        AuthoredTarget(Choices(g[k])[i]).Some? && AuthoredTarget(Choices(g[k])[i]).value in g
  }

  /** Some node ends the conversation with an empty choices array. */
  predicate HasTerminal(g: Graph) {
    exists k :: k in g && g[k].choices == Some([])
  }

  /** The start node offers at least two choices, with non-empty, pairwise distinct texts. */
  predicate StartBranches(g: Graph, start: string) {
    start in g && |Choices(g[start])| >= 2
    && (forall i :: 0 <= i < |Choices(g[start])| ==> Choices(g[start])[i].text != "")
    && forall i, j :: 0 <= i < j < |Choices(g[start])| ==> Choices(g[start])[i].text != Choices(g[start])[j].text
  }

  /** Only the node `at` has choices written with `nextNodeId`. */
  predicate NextNodeIdOnlyAt(g: Graph, at: string) {
    forall k :: k in g ==>
      forall i :: 0 <= i < |Choices(g[k])| ==> Choices(g[k])[i].nextNodeId.Some? ==> k == at
  }

  /** No choice of the graph is written with `nextNodeId`. */
  predicate NoNextNodeId(g: Graph) {
    forall k :: k in g ==> forall i :: 0 <= i < |Choices(g[k])| ==> Choices(g[k])[i].nextNodeId.None?
  }

  /**
   * The authored graphs are two-level trees: every choice leads to a node of
   * the graph other than the start, and every choice of a node other than the
   * start leads to a node without choices.
   */
  predicate TwoLevel(g: Graph, start: string) {
    forall k :: k in g ==>
      forall i :: 0 <= i < |Choices(g[k])| ==>
        var t := AuthoredTarget(Choices(g[k])[i]);
        t.Some? && t.value != start && t.value in g && (k != start ==> Choices(g[t.value]) == [])
  }

  /** A choice of node `a` leads to node `b`. */
  predicate Edge(g: Graph, a: string, b: string) {
    a in g && exists i :: 0 <= i < |Choices(g[a])| && AuthoredTarget(Choices(g[a])[i]) == Some(b)
  }

  /** A walk along choices, node by node. */
  predicate IsPath(g: Graph, p: seq<string>) {
    |p| >= 1 && forall i :: 0 <= i < |p| - 1 ==> Edge(g, p[i], p[i + 1])
  }

  /** No walk of one or more choices comes back to the node it started from. */
  ghost predicate Acyclic(g: Graph) {
    forall p :: IsPath(g, p) && |p| >= 2 ==> p[0] != p[|p| - 1]
  }

  /** Some walk along choices leads from `start` to `k`. */
  ghost predicate Reaches(g: Graph, start: string, k: string) {
    exists p :: IsPath(g, p) && p[0] == start && p[|p| - 1] == k
  }

  /** Every node of the graph is reached from `start`: the graph has no orphan node. */
  ghost predicate Rooted(g: Graph, start: string) {
    forall k :: k in g ==> Reaches(g, start, k)
  }

  /** What every object's graph satisfies. */
  ghost predicate WellFormedGraph(objectId: string, g: Graph) {
    && StartId(objectId) in g
    && KeyedById(g)
    && TargetsClosed(g)
    && Acyclic(g)
    && Rooted(g, StartId(objectId))
    && HasTerminal(g)
    && StartBranches(g, StartId(objectId))
  }

  /** The phone dialogue tree; only `phone_start` uses `nextNodeId`. */
  function PhoneDialogue(): (g: Graph)
    ensures "phone_start" in g && g["phone_start"].id == "phone_start"
  {
    map[
      "phone_start" := Node("phone_start", [
        Via("I need to stay connected", "phone_connected"),
        Via("Maybe the silence is peaceful", "phone_peaceful"),
        Via("What if someone needs me?", "phone_anxiety")]),
      "phone_connected" := Node("phone_connected", [
        To("Check for missed calls", "phone_missed"),
        To("The anxiety is getting worse", "phone_anxiety_growing")]),
      "phone_peaceful" := Node("phone_peaceful", [
        To("I miss the connection", "phone_miss_connection"),
        To("This silence is exactly what I need", "phone_embrace_silence")]),
      "phone_anxiety" := Node("phone_anxiety", [
        To("I'm probably overreacting", "phone_overreacting"),
        To("I can't take this uncertainty", "phone_uncertainty")]),
      "phone_missed" := Node("phone_missed", []),
      "phone_anxiety_growing" := Node("phone_anxiety_growing", []),
      "phone_miss_connection" := Node("phone_miss_connection", []),
      "phone_embrace_silence" := Node("phone_embrace_silence", []),
      "phone_overreacting" := Node("phone_overreacting", []),
      "phone_uncertainty" := Node("phone_uncertainty", [])
    ]
  }

  lemma PhoneKeyedById()
    ensures KeyedById(PhoneDialogue())
  {
  }

  lemma PhoneTwoLevel()
    ensures TwoLevel(PhoneDialogue(), "phone_start")
  {
  }

  lemma PhoneStartBranches()
    ensures StartBranches(PhoneDialogue(), "phone_start")
  {
  }

  lemma PhoneNextNodeId()
    ensures NextNodeIdOnlyAt(PhoneDialogue(), "phone_start")
  {
  }

  /** Each node of the phone tree, reached from `phone_start` along its authored choices. */
  lemma PhoneReaches(k: string)
    requires k in PhoneDialogue()
    ensures Reaches(PhoneDialogue(), "phone_start", k)
  {
    if k == "phone_start" {
      StartReached(PhoneDialogue(), k);
    } else if k == "phone_connected" {
      ReachedByOne(PhoneDialogue(), "phone_start", 0, k);
    } else if k == "phone_peaceful" {
      ReachedByOne(PhoneDialogue(), "phone_start", 1, k);
    } else if k == "phone_anxiety" {
      ReachedByOne(PhoneDialogue(), "phone_start", 2, k);
    } else if k == "phone_missed" {
      ReachedByTwo(PhoneDialogue(), "phone_start", 0, "phone_connected", 0, k);
    } else if k == "phone_anxiety_growing" {
      ReachedByTwo(PhoneDialogue(), "phone_start", 0, "phone_connected", 1, k);
    } else if k == "phone_miss_connection" {
      ReachedByTwo(PhoneDialogue(), "phone_start", 1, "phone_peaceful", 0, k);
    } else if k == "phone_embrace_silence" {
      ReachedByTwo(PhoneDialogue(), "phone_start", 1, "phone_peaceful", 1, k);
    } else if k == "phone_overreacting" {
      ReachedByTwo(PhoneDialogue(), "phone_start", 2, "phone_anxiety", 0, k);
    } else if k == "phone_uncertainty" {
      ReachedByTwo(PhoneDialogue(), "phone_start", 2, "phone_anxiety", 1, k);
    } else {
      assert false;
    }
  }

  lemma {:induction false} PhoneRooted()
    ensures Rooted(PhoneDialogue(), "phone_start")
  {
    forall k | k in PhoneDialogue() ensures Reaches(PhoneDialogue(), "phone_start", k) {
      PhoneReaches(k);
    }
  }

  /** The phone tree is well formed, and `phone_missed` ends it. */
  lemma {:induction false} PhoneWellFormed()
    ensures WellFormedGraph("phone", PhoneDialogue())
    ensures NextNodeIdOnlyAt(PhoneDialogue(), "phone_start")
  {
    assert StartId("phone") == "phone_start";
    assert PhoneDialogue()["phone_missed"].choices == Some([]);
    PhoneKeyedById();
    PhoneTwoLevel();
    PhoneStartBranches();
    PhoneNextNodeId();
    PhoneRooted();
    TwoLevelIsTree(PhoneDialogue(), "phone_start");
  }

  /** The laptop dialogue tree; no choice uses `nextNodeId`. */
  function LaptopDialogue(): (g: Graph)
    ensures "laptop_start" in g && g["laptop_start"].id == "laptop_start"
  {
    map[
      "laptop_start" := Node("laptop_start", [
        To("I should check my emails", "laptop_emails"),
        To("Maybe I can work from here forever", "laptop_remote_work"),
        To("Close the lid and walk away", "laptop_avoid")]),
      "laptop_emails" := Node("laptop_emails", [
        To("Start reading from the top", "laptop_overwhelmed"),
        To("Mark all as read", "laptop_ignore"),
        To("Search for anything urgent", "laptop_urgent")]),
      "laptop_remote_work" := Node("laptop_remote_work", [
        To("This isn't sustainable", "laptop_unsustainable"),
        To("I'm safe here", "laptop_safe_space")]),
      "laptop_avoid" := Node("laptop_avoid", []),
      "laptop_overwhelmed" := Node("laptop_overwhelmed", []),
      "laptop_ignore" := Node("laptop_ignore", []),
      "laptop_urgent" := Node("laptop_urgent", []),
      "laptop_unsustainable" := Node("laptop_unsustainable", []),
      "laptop_safe_space" := Node("laptop_safe_space", [])
    ]
  }

  lemma LaptopKeyedById()
    ensures KeyedById(LaptopDialogue())
  {
  }

  lemma LaptopTwoLevel()
    ensures TwoLevel(LaptopDialogue(), "laptop_start")
  {
  }

  lemma LaptopStartBranches()
    ensures StartBranches(LaptopDialogue(), "laptop_start")
  {
  }

  lemma LaptopNextNodeId()
    ensures NoNextNodeId(LaptopDialogue())
  {
  }

  /** Each node of the laptop tree, reached from `laptop_start` along its authored choices. */
  lemma LaptopReaches(k: string)
    requires k in LaptopDialogue()
    ensures Reaches(LaptopDialogue(), "laptop_start", k)
  {
    if k == "laptop_start" {
      StartReached(LaptopDialogue(), k);
    } else if k == "laptop_emails" {
      ReachedByOne(LaptopDialogue(), "laptop_start", 0, k);
    } else if k == "laptop_remote_work" {
      ReachedByOne(LaptopDialogue(), "laptop_start", 1, k);
    } else if k == "laptop_avoid" {
      ReachedByOne(LaptopDialogue(), "laptop_start", 2, k);
    } else if k == "laptop_overwhelmed" {
      ReachedByTwo(LaptopDialogue(), "laptop_start", 0, "laptop_emails", 0, k);
    } else if k == "laptop_ignore" {
      ReachedByTwo(LaptopDialogue(), "laptop_start", 0, "laptop_emails", 1, k);
    } else if k == "laptop_urgent" {
      ReachedByTwo(LaptopDialogue(), "laptop_start", 0, "laptop_emails", 2, k);
    } else if k == "laptop_unsustainable" {
      ReachedByTwo(LaptopDialogue(), "laptop_start", 1, "laptop_remote_work", 0, k);
    } else if k == "laptop_safe_space" {
      ReachedByTwo(LaptopDialogue(), "laptop_start", 1, "laptop_remote_work", 1, k);
    } else {
      assert false;
    }
  }

  lemma {:induction false} LaptopRooted()
    ensures Rooted(LaptopDialogue(), "laptop_start")
  {
    forall k | k in LaptopDialogue() ensures Reaches(LaptopDialogue(), "laptop_start", k) {
      LaptopReaches(k);
    }
  }

  /** The laptop tree is well formed, and `laptop_avoid` ends it. */
  lemma {:induction false} LaptopWellFormed()
    ensures WellFormedGraph("laptop", LaptopDialogue())
    ensures NoNextNodeId(LaptopDialogue())
  {
    assert StartId("laptop") == "laptop_start";
    assert LaptopDialogue()["laptop_avoid"].choices == Some([]);
    LaptopKeyedById();
    LaptopTwoLevel();
    LaptopStartBranches();
    LaptopNextNodeId();
    LaptopRooted();
    TwoLevelIsTree(LaptopDialogue(), "laptop_start");
  }

  /** The VR headset dialogue tree; no choice uses `nextNodeId`. */
  function VrHeadsetDialogue(): (g: Graph)
    ensures "vr_headset_start" in g && g["vr_headset_start"].id == "vr_headset_start"
  {
    map[
      "vr_headset_start" := Node("vr_headset_start", [
        To("Put on the headset", "vr_escape"),
        To("Virtual isn't real", "vr_reality_check"),
        To("Maybe I can practice being social", "vr_social_practice")]),
      "vr_escape" := Node("vr_escape", [
        To("The real world feels smaller", "vr_diminished_reality"),
        To("I want to go back in", "vr_addiction")]),
      "vr_reality_check" := Node("vr_reality_check", [
        To("Feelings matter more than physics", "vr_emotional_reality"),
        To("I need to engage with the actual world", "vr_actual_world")]),
      "vr_social_practice" := Node("vr_social_practice", [
        To("This could be therapeutic", "vr_therapy"),
        To("Or it could become another avoidance", "vr_avoidance")]),
      "vr_diminished_reality" := Node("vr_diminished_reality", []),
      "vr_addiction" := Node("vr_addiction", []),
      "vr_emotional_reality" := Node("vr_emotional_reality", []),
      "vr_actual_world" := Node("vr_actual_world", []),
      "vr_therapy" := Node("vr_therapy", []),
      "vr_avoidance" := Node("vr_avoidance", [])
    ]
  }

  lemma VrHeadsetKeyedById()
    ensures KeyedById(VrHeadsetDialogue())
  {
  }

  lemma VrHeadsetTwoLevel()
    ensures TwoLevel(VrHeadsetDialogue(), "vr_headset_start")
  {
  }

  lemma VrHeadsetStartBranches()
    ensures StartBranches(VrHeadsetDialogue(), "vr_headset_start")
  {
  }

  lemma VrHeadsetNextNodeId()
    ensures NoNextNodeId(VrHeadsetDialogue())
  {
  }

  /** Each node of the VR headset tree, reached from `vr_headset_start` along its authored choices. */
  lemma VrHeadsetReaches(k: string)
    requires k in VrHeadsetDialogue()
    ensures Reaches(VrHeadsetDialogue(), "vr_headset_start", k)
  {
    if k == "vr_headset_start" {
      StartReached(VrHeadsetDialogue(), k);
    } else if k == "vr_escape" {
      ReachedByOne(VrHeadsetDialogue(), "vr_headset_start", 0, k);
    } else if k == "vr_reality_check" {
      ReachedByOne(VrHeadsetDialogue(), "vr_headset_start", 1, k);
    } else if k == "vr_social_practice" {
      ReachedByOne(VrHeadsetDialogue(), "vr_headset_start", 2, k);
    } else if k == "vr_diminished_reality" {
      ReachedByTwo(VrHeadsetDialogue(), "vr_headset_start", 0, "vr_escape", 0, k);
    } else if k == "vr_addiction" {
      ReachedByTwo(VrHeadsetDialogue(), "vr_headset_start", 0, "vr_escape", 1, k);
    } else if k == "vr_emotional_reality" {
      ReachedByTwo(VrHeadsetDialogue(), "vr_headset_start", 1, "vr_reality_check", 0, k);
    } else if k == "vr_actual_world" {
      ReachedByTwo(VrHeadsetDialogue(), "vr_headset_start", 1, "vr_reality_check", 1, k);
    } else if k == "vr_therapy" {
      ReachedByTwo(VrHeadsetDialogue(), "vr_headset_start", 2, "vr_social_practice", 0, k);
    } else if k == "vr_avoidance" {
      ReachedByTwo(VrHeadsetDialogue(), "vr_headset_start", 2, "vr_social_practice", 1, k);
    } else {
      assert false;
    }
  }

  lemma {:induction false} VrHeadsetRooted()
    ensures Rooted(VrHeadsetDialogue(), "vr_headset_start")
  {
    forall k | k in VrHeadsetDialogue() ensures Reaches(VrHeadsetDialogue(), "vr_headset_start", k) {
      VrHeadsetReaches(k);
    }
  }

  /** The VR headset tree is well formed, and `vr_diminished_reality` ends it. */
  lemma {:induction false} VrHeadsetWellFormed()
    ensures WellFormedGraph("vr_headset", VrHeadsetDialogue())
    ensures NoNextNodeId(VrHeadsetDialogue())
  {
    assert StartId("vr_headset") == "vr_headset_start";
    assert VrHeadsetDialogue()["vr_diminished_reality"].choices == Some([]);
    VrHeadsetKeyedById();
    VrHeadsetTwoLevel();
    VrHeadsetStartBranches();
    VrHeadsetNextNodeId();
    VrHeadsetRooted();
    TwoLevelIsTree(VrHeadsetDialogue(), "vr_headset_start");
  }

  /** The alarm clock dialogue tree; no choice uses `nextNodeId`. */
  function AlarmClockDialogue(): (g: Graph)
    ensures "alarm_clock_start" in g && g["alarm_clock_start"].id == "alarm_clock_start"
  {
    map[
      "alarm_clock_start" := Node("alarm_clock_start", [
        To("When did I last have a schedule?", "alarm_schedule"),
        To("Time moves differently when you're anxious", "alarm_anxiety_time"),
        To("I should set an alarm for tomorrow", "alarm_tomorrow")]),
      "alarm_schedule" := Node("alarm_schedule", [
        To("Structure was actually comforting", "alarm_structure_comfort"),
        To("I can create my own routine", "alarm_self_structure")]),
      "alarm_anxiety_time" := Node("alarm_anxiety_time", [
        To("I need to reclaim my time", "alarm_reclaim_time"),
        To("Maybe time doesn't matter", "alarm_time_meaningless")]),
      "alarm_tomorrow" := Node("alarm_tomorrow", [
        To("I mean it this time", "alarm_commitment"),
        To("I've made this promise before", "alarm_broken_promises")]),
      "alarm_structure_comfort" := Node("alarm_structure_comfort", []),
      "alarm_self_structure" := Node("alarm_self_structure", []),
      "alarm_reclaim_time" := Node("alarm_reclaim_time", []),
      "alarm_time_meaningless" := Node("alarm_time_meaningless", []),
      "alarm_commitment" := Node("alarm_commitment", []),
      "alarm_broken_promises" := Node("alarm_broken_promises", [])
    ]
  }

  lemma AlarmClockKeyedById()
    ensures KeyedById(AlarmClockDialogue())
  {
  }

  lemma AlarmClockTwoLevel()
    ensures TwoLevel(AlarmClockDialogue(), "alarm_clock_start")
  {
  }

  lemma AlarmClockStartBranches()
    ensures StartBranches(AlarmClockDialogue(), "alarm_clock_start")
  {
  }

  lemma AlarmClockNextNodeId()
    ensures NoNextNodeId(AlarmClockDialogue())
  {
  }

  /** Each node of the alarm clock tree, reached from `alarm_clock_start` along its authored choices. */
  lemma AlarmClockReaches(k: string)
    requires k in AlarmClockDialogue()
    ensures Reaches(AlarmClockDialogue(), "alarm_clock_start", k)
  {
    if k == "alarm_clock_start" {
      StartReached(AlarmClockDialogue(), k);
    } else if k == "alarm_schedule" {
      ReachedByOne(AlarmClockDialogue(), "alarm_clock_start", 0, k);
    } else if k == "alarm_anxiety_time" {
      ReachedByOne(AlarmClockDialogue(), "alarm_clock_start", 1, k);
    } else if k == "alarm_tomorrow" {
      ReachedByOne(AlarmClockDialogue(), "alarm_clock_start", 2, k);
    } else if k == "alarm_structure_comfort" {
      ReachedByTwo(AlarmClockDialogue(), "alarm_clock_start", 0, "alarm_schedule", 0, k);
    } else if k == "alarm_self_structure" {
      ReachedByTwo(AlarmClockDialogue(), "alarm_clock_start", 0, "alarm_schedule", 1, k);
    } else if k == "alarm_reclaim_time" {
      ReachedByTwo(AlarmClockDialogue(), "alarm_clock_start", 1, "alarm_anxiety_time", 0, k);
    } else if k == "alarm_time_meaningless" {
      ReachedByTwo(AlarmClockDialogue(), "alarm_clock_start", 1, "alarm_anxiety_time", 1, k);
    } else if k == "alarm_commitment" {
      ReachedByTwo(AlarmClockDialogue(), "alarm_clock_start", 2, "alarm_tomorrow", 0, k);
    } else if k == "alarm_broken_promises" {
      ReachedByTwo(AlarmClockDialogue(), "alarm_clock_start", 2, "alarm_tomorrow", 1, k);
    } else {
      assert false;
    }
  }

  lemma {:induction false} AlarmClockRooted()
    ensures Rooted(AlarmClockDialogue(), "alarm_clock_start")
  {
    forall k | k in AlarmClockDialogue() ensures Reaches(AlarmClockDialogue(), "alarm_clock_start", k) {
      AlarmClockReaches(k);
    }
  }

  /** The alarm clock tree is well formed, and `alarm_structure_comfort` ends it. */
  lemma {:induction false} AlarmClockWellFormed()
    ensures WellFormedGraph("alarm_clock", AlarmClockDialogue())
    ensures NoNextNodeId(AlarmClockDialogue())
  {
    assert StartId("alarm_clock") == "alarm_clock_start";
    assert AlarmClockDialogue()["alarm_structure_comfort"].choices == Some([]);
    AlarmClockKeyedById();
    AlarmClockTwoLevel();
    AlarmClockStartBranches();
    AlarmClockNextNodeId();
    AlarmClockRooted();
    TwoLevelIsTree(AlarmClockDialogue(), "alarm_clock_start");
  }

  /** The desk dialogue tree; no choice uses `nextNodeId`. */
  function DeskDialogue(): (g: Graph)
    ensures "desk_start" in g && g["desk_start"].id == "desk_start"
  {
    map[
      "desk_start" := Node("desk_start", [
        To("Look at the unfinished projects", "desk_projects"),
        To("This used to inspire me", "desk_inspiration"),
        To("I need to organize this chaos", "desk_organize")]),
      "desk_projects" := Node("desk_projects", [
        To("I can still finish these", "desk_finish"),
        To("Why do I start things I can't complete?", "desk_pattern")]),
      "desk_inspiration" := Node("desk_inspiration", [
        To("I can reclaim this space", "desk_reclaim"),
        To("Those days are gone", "desk_nostalgia")]),
      "desk_organize" := Node("desk_organize", [
        To("External order creates internal calm", "desk_external_order"),
        To("This is just another avoidance tactic", "desk_avoidance")]),
      "desk_finish" := Node("desk_finish", []),
      "desk_pattern" := Node("desk_pattern", []),
      "desk_reclaim" := Node("desk_reclaim", []),
      "desk_nostalgia" := Node("desk_nostalgia", []),
      "desk_external_order" := Node("desk_external_order", []),
      "desk_avoidance" := Node("desk_avoidance", [])
    ]
  }

  lemma DeskKeyedById()
    ensures KeyedById(DeskDialogue())
  {
  }

  lemma DeskTwoLevel()
    ensures TwoLevel(DeskDialogue(), "desk_start")
  {
  }

  lemma DeskStartBranches()
    ensures StartBranches(DeskDialogue(), "desk_start")
  {
  }

  lemma DeskNextNodeId()
    ensures NoNextNodeId(DeskDialogue())
  {
  }

  /** Each node of the desk tree, reached from `desk_start` along its authored choices. */
  lemma DeskReaches(k: string)
    requires k in DeskDialogue()
    ensures Reaches(DeskDialogue(), "desk_start", k)
  {
    if k == "desk_start" {
      StartReached(DeskDialogue(), k);
    } else if k == "desk_projects" {
      ReachedByOne(DeskDialogue(), "desk_start", 0, k);
    } else if k == "desk_inspiration" {
      ReachedByOne(DeskDialogue(), "desk_start", 1, k);
    } else if k == "desk_organize" {
      ReachedByOne(DeskDialogue(), "desk_start", 2, k);
    } else if k == "desk_finish" {
      ReachedByTwo(DeskDialogue(), "desk_start", 0, "desk_projects", 0, k);
    } else if k == "desk_pattern" {
      ReachedByTwo(DeskDialogue(), "desk_start", 0, "desk_projects", 1, k);
    } else if k == "desk_reclaim" {
      ReachedByTwo(DeskDialogue(), "desk_start", 1, "desk_inspiration", 0, k);
    } else if k == "desk_nostalgia" {
      ReachedByTwo(DeskDialogue(), "desk_start", 1, "desk_inspiration", 1, k);
    } else if k == "desk_external_order" {
      ReachedByTwo(DeskDialogue(), "desk_start", 2, "desk_organize", 0, k);
    } else if k == "desk_avoidance" {
      ReachedByTwo(DeskDialogue(), "desk_start", 2, "desk_organize", 1, k);
    } else {
      assert false;
    }
  }

  lemma {:induction false} DeskRooted()
    ensures Rooted(DeskDialogue(), "desk_start")
  {
    forall k | k in DeskDialogue() ensures Reaches(DeskDialogue(), "desk_start", k) {
      DeskReaches(k);
    }
  }

  /** The desk tree is well formed, and `desk_finish` ends it. */
  lemma {:induction false} DeskWellFormed()
    ensures WellFormedGraph("desk", DeskDialogue())
    ensures NoNextNodeId(DeskDialogue())
  {
    assert StartId("desk") == "desk_start";
    assert DeskDialogue()["desk_finish"].choices == Some([]);
    DeskKeyedById();
    DeskTwoLevel();
    DeskStartBranches();
    DeskNextNodeId();
    DeskRooted();
    TwoLevelIsTree(DeskDialogue(), "desk_start");
  }

  /** The bed dialogue tree; no choice uses `nextNodeId`. */
  function BedDialogue(): (g: Graph)
    ensures "bed_start" in g && g["bed_start"].id == "bed_start"
  {
    map[
      "bed_start" := Node("bed_start", [
        To("I sleep too much", "bed_oversleep"),
        To("I can't sleep at all", "bed_insomnia"),
        To("This is my safe space", "bed_safe")]),
      "bed_oversleep" := Node("bed_oversleep", [
        To("Sleep is healing", "bed_healing"),
        To("I'm wasting my life", "bed_wasting")]),
      "bed_insomnia" := Node("bed_insomnia", [
        To("My mind won't stop racing", "bed_racing_mind"),
        To("Darkness makes everything worse", "bed_darkness")]),
      "bed_safe" := Node("bed_safe", [
        To("I need this sanctuary", "bed_sanctuary"),
        To("This isn't living", "bed_not_living")]),
      "bed_healing" := Node("bed_healing", []),
      "bed_wasting" := Node("bed_wasting", []),
      "bed_racing_mind" := Node("bed_racing_mind", []),
      "bed_darkness" := Node("bed_darkness", []),
      "bed_sanctuary" := Node("bed_sanctuary", []),
      "bed_not_living" := Node("bed_not_living", [])
    ]
  }

  lemma BedKeyedById()
    ensures KeyedById(BedDialogue())
  {
  }

  lemma BedTwoLevel()
    ensures TwoLevel(BedDialogue(), "bed_start")
  {
  }

  lemma BedStartBranches()
    ensures StartBranches(BedDialogue(), "bed_start")
  {
  }

  lemma BedNextNodeId()
    ensures NoNextNodeId(BedDialogue())
  {
  }

  /** Each node of the bed tree, reached from `bed_start` along its authored choices. */
  lemma BedReaches(k: string)
    requires k in BedDialogue()
    ensures Reaches(BedDialogue(), "bed_start", k)
  {
    if k == "bed_start" {
      StartReached(BedDialogue(), k);
    } else if k == "bed_oversleep" {
      ReachedByOne(BedDialogue(), "bed_start", 0, k);
    } else if k == "bed_insomnia" {
      ReachedByOne(BedDialogue(), "bed_start", 1, k);
    } else if k == "bed_safe" {
      ReachedByOne(BedDialogue(), "bed_start", 2, k);
    } else if k == "bed_healing" {
      ReachedByTwo(BedDialogue(), "bed_start", 0, "bed_oversleep", 0, k);
    } else if k == "bed_wasting" {
      ReachedByTwo(BedDialogue(), "bed_start", 0, "bed_oversleep", 1, k);
    } else if k == "bed_racing_mind" {
      ReachedByTwo(BedDialogue(), "bed_start", 1, "bed_insomnia", 0, k);
    } else if k == "bed_darkness" {
      ReachedByTwo(BedDialogue(), "bed_start", 1, "bed_insomnia", 1, k);
    } else if k == "bed_sanctuary" {
      ReachedByTwo(BedDialogue(), "bed_start", 2, "bed_safe", 0, k);
    } else if k == "bed_not_living" {
      ReachedByTwo(BedDialogue(), "bed_start", 2, "bed_safe", 1, k);
    } else {
      assert false;
    }
  }

  lemma {:induction false} BedRooted()
    ensures Rooted(BedDialogue(), "bed_start")
  {
    forall k | k in BedDialogue() ensures Reaches(BedDialogue(), "bed_start", k) {
      BedReaches(k);
    }
  }

  /** The bed tree is well formed, and `bed_healing` ends it. */
  lemma {:induction false} BedWellFormed()
    ensures WellFormedGraph("bed", BedDialogue())
    ensures NoNextNodeId(BedDialogue())
  {
    assert StartId("bed") == "bed_start";
    assert BedDialogue()["bed_healing"].choices == Some([]);
    BedKeyedById();
    BedTwoLevel();
    BedStartBranches();
    BedNextNodeId();
    BedRooted();
    TwoLevelIsTree(BedDialogue(), "bed_start");
  }

  /** The chair dialogue tree; no choice uses `nextNodeId`. */
  function ChairDialogue(): (g: Graph)
    ensures "chair_start" in g && g["chair_start"].id == "chair_start"
  {
    map[
      "chair_start" := Node("chair_start", [
        To("I sit here because I don't know where else to go", "chair_paralysis"),
        To("This chair has seen all my breakdowns", "chair_witness"),
        To("Maybe I should just get up and move", "chair_movement")]),
      "chair_paralysis" := Node("chair_paralysis", [
        To("Inaction is also a choice", "chair_inaction"),
        To("I need to break this pattern", "chair_pattern_break")]),
      "chair_witness" := Node("chair_witness", [
        To("It would understand my pain", "chair_understanding"),
        To("It would want me to get better", "chair_encouragement")]),
      "chair_movement" := Node("chair_movement", [
        To("Small movements count too", "chair_small_steps"),
        To("I'm too tired to move", "chair_exhaustion")]),
      "chair_inaction" := Node("chair_inaction", []),
      "chair_pattern_break" := Node("chair_pattern_break", []),
      "chair_understanding" := Node("chair_understanding", []),
      "chair_encouragement" := Node("chair_encouragement", []),
      "chair_small_steps" := Node("chair_small_steps", []),
      "chair_exhaustion" := Node("chair_exhaustion", [])
    ]
  }

  lemma ChairKeyedById()
    ensures KeyedById(ChairDialogue())
  {
  }

  lemma ChairTwoLevel()
    ensures TwoLevel(ChairDialogue(), "chair_start")
  {
  }

  lemma ChairStartBranches()
    ensures StartBranches(ChairDialogue(), "chair_start")
  {
  }

  lemma ChairNextNodeId()
    ensures NoNextNodeId(ChairDialogue())
  {
  }

  /** Each node of the chair tree, reached from `chair_start` along its authored choices. */
  lemma ChairReaches(k: string)
    requires k in ChairDialogue()
    ensures Reaches(ChairDialogue(), "chair_start", k)
  {
    if k == "chair_start" {
      StartReached(ChairDialogue(), k);
    } else if k == "chair_paralysis" {
      ReachedByOne(ChairDialogue(), "chair_start", 0, k);
    } else if k == "chair_witness" {
      ReachedByOne(ChairDialogue(), "chair_start", 1, k);
    } else if k == "chair_movement" {
      ReachedByOne(ChairDialogue(), "chair_start", 2, k);
    } else if k == "chair_inaction" {
      ReachedByTwo(ChairDialogue(), "chair_start", 0, "chair_paralysis", 0, k);
    } else if k == "chair_pattern_break" {
      ReachedByTwo(ChairDialogue(), "chair_start", 0, "chair_paralysis", 1, k);
    } else if k == "chair_understanding" {
      ReachedByTwo(ChairDialogue(), "chair_start", 1, "chair_witness", 0, k);
    } else if k == "chair_encouragement" {
      ReachedByTwo(ChairDialogue(), "chair_start", 1, "chair_witness", 1, k);
    } else if k == "chair_small_steps" {
      ReachedByTwo(ChairDialogue(), "chair_start", 2, "chair_movement", 0, k);
    } else if k == "chair_exhaustion" {
      ReachedByTwo(ChairDialogue(), "chair_start", 2, "chair_movement", 1, k);
    } else {
      assert false;
    }
  }

  lemma {:induction false} ChairRooted()
    ensures Rooted(ChairDialogue(), "chair_start")
  {
    forall k | k in ChairDialogue() ensures Reaches(ChairDialogue(), "chair_start", k) {
      ChairReaches(k);
    }
  }

  /** The chair tree is well formed, and `chair_inaction` ends it. */
  lemma {:induction false} ChairWellFormed()
    ensures WellFormedGraph("chair", ChairDialogue())
    ensures NoNextNodeId(ChairDialogue())
  {
    assert StartId("chair") == "chair_start";
    assert ChairDialogue()["chair_inaction"].choices == Some([]);
    ChairKeyedById();
    ChairTwoLevel();
    ChairStartBranches();
    ChairNextNodeId();
    ChairRooted();
    TwoLevelIsTree(ChairDialogue(), "chair_start");
  }

  /** The ids of the objects that have a dialogue. */
  const ObjectIds: set<string> := {"phone", "laptop", "vr_headset", "alarm_clock", "desk", "bed", "chair"}

  /** The seven ids are distinct. */
  lemma SevenObjects()
    ensures |ObjectIds| == 7
  {
    var s := {"phone", "laptop", "vr_headset"};
    assert |s| == 3;
    var t := s + {"alarm_clock"};
    assert "alarm_clock" !in s;
    var u := t + {"desk"};
    assert "desk" !in t;
    var v := u + {"bed"};
    assert "bed" !in u;
    assert "chair" !in v;
    assert ObjectIds == v + {"chair"};
  }

  /** The graph `getAllDialogue` stores under a dialogue object's id. */
  function GraphOf(objectId: string): Graph
    requires objectId in ObjectIds
  {
    if objectId == "phone" then PhoneDialogue()
    else if objectId == "laptop" then LaptopDialogue()
    else if objectId == "vr_headset" then VrHeadsetDialogue()
    else if objectId == "alarm_clock" then AlarmClockDialogue()
    else if objectId == "desk" then DeskDialogue()
    else if objectId == "bed" then BedDialogue()
    else ChairDialogue()
  }

  /** `getAllDialogue`: exactly the seven objects, each mapped to its graph. */
  function AllDialogue(): (r: map<string, Graph>)
    ensures r.Keys == ObjectIds
  {
    map o | o in ObjectIds :: GraphOf(o)
  }

  /**
   * Every graph `getAllDialogue` returns is well formed, and only `phone_start`
   * writes its choices with `nextNodeId`.
   */
  lemma {:induction false} AllDialogueWellFormed(o: string)
    requires o in AllDialogue()
    ensures WellFormedGraph(o, AllDialogue()[o])
    ensures NextNodeIdOnlyAt(AllDialogue()[o], "phone_start")
  {
    GraphOfWellFormed(o);
  }

  /** The choices of `phone_start`: three unconditioned choices naming their targets in `nextNodeId`. */
  lemma PhoneStartNode(index: int)
    requires 0 <= index < 3
    ensures var g := PhoneDialogue();
      var cs := Choices(g["phone_start"]);
      var target := ["phone_connected", "phone_peaceful", "phone_anxiety"][index];
      && g["phone_start"].choices.Some?
      && (forall i :: 0 <= i < |cs| ==> cs[i].condition.None?)
      && 0 <= index < |cs| && cs[index].nextNodeId == Some(target)
      && target in g && target != ""
  {
  }

  /** The same, for the graph `getAllDialogue` maps the phone to. */
  lemma {:induction false} PhoneStartChoices(index: int)
    requires 0 <= index < 3
    ensures "phone" in AllDialogue() && StartId("phone") in AllDialogue()["phone"]
    ensures var g := AllDialogue()["phone"];
      var cs := Choices(g[StartId("phone")]);
      var target := ["phone_connected", "phone_peaceful", "phone_anxiety"][index];
      && g[StartId("phone")].choices.Some?
      && (forall i :: 0 <= i < |cs| ==> cs[i].condition.None?)
      && 0 <= index < |cs| && cs[index].nextNodeId == Some(target)
      && target in g && target != ""
  {
    assert "phone" in ObjectIds;
    assert AllDialogue()["phone"] == PhoneDialogue();
    assert StartId("phone") == "phone_start";
    PhoneStartNode(index);
  }

  lemma {:induction false} GraphOfWellFormed(o: string)
    requires o in ObjectIds
    ensures WellFormedGraph(o, GraphOf(o)) && NextNodeIdOnlyAt(GraphOf(o), "phone_start")
  {
    if o == "phone" {
      PhoneGraphOf(o);
    } else if o == "laptop" {
      LaptopGraphOf(o);
    } else if o == "vr_headset" {
      VrHeadsetGraphOf(o);
    } else if o == "alarm_clock" {
      AlarmClockGraphOf(o);
    } else if o == "desk" {
      DeskGraphOf(o);
    } else if o == "bed" {
      BedGraphOf(o);
    } else {
      ChairGraphOf(o);
    }
  }

  // Which graph each object id selects, one id at a time.

  lemma LaptopSelected(o: string)
    requires o == "laptop"
    ensures GraphOf(o) == LaptopDialogue()
  {
  }

  lemma VrHeadsetSelected(o: string)
    requires o == "vr_headset"
    ensures GraphOf(o) == VrHeadsetDialogue()
  {
  }

  lemma AlarmClockSelected(o: string)
    requires o == "alarm_clock"
    ensures GraphOf(o) == AlarmClockDialogue()
  {
  }

  lemma DeskSelected(o: string)
    requires o == "desk"
    ensures GraphOf(o) == DeskDialogue()
  {
  }

  lemma BedSelected(o: string)
    requires o == "bed"
    ensures GraphOf(o) == BedDialogue()
  {
  }

  lemma ChairSelected(o: string)
    requires o == "chair"
    ensures GraphOf(o) == ChairDialogue()
  {
  }

  /** A graph in which no choice writes `nextNodeId` has none outside any given node. */
  lemma NoneIsOnlyAt(g: Graph, at: string)
    requires NoNextNodeId(g)
    ensures NextNodeIdOnlyAt(g, at)
  {
  }

  lemma {:induction false} PhoneGraphOf(o: string)
    requires o == "phone"
    ensures WellFormedGraph(o, GraphOf(o)) && NextNodeIdOnlyAt(GraphOf(o), "phone_start")
  {
    PhoneWellFormed();
  }

  lemma {:induction false} LaptopGraphOf(o: string)
    requires o == "laptop"
    ensures WellFormedGraph(o, GraphOf(o)) && NextNodeIdOnlyAt(GraphOf(o), "phone_start")
  {
    LaptopSelected(o);
    LaptopWellFormed();
    NoneIsOnlyAt(LaptopDialogue(), "phone_start");
  }

  lemma {:induction false} VrHeadsetGraphOf(o: string)
    requires o == "vr_headset"
    ensures WellFormedGraph(o, GraphOf(o)) && NextNodeIdOnlyAt(GraphOf(o), "phone_start")
  {
    VrHeadsetSelected(o);
    VrHeadsetWellFormed();
    NoneIsOnlyAt(VrHeadsetDialogue(), "phone_start");
  }

  lemma {:induction false} AlarmClockGraphOf(o: string)
    requires o == "alarm_clock"
    ensures WellFormedGraph(o, GraphOf(o)) && NextNodeIdOnlyAt(GraphOf(o), "phone_start")
  {
    AlarmClockSelected(o);
    AlarmClockWellFormed();
    NoneIsOnlyAt(AlarmClockDialogue(), "phone_start");
  }

  lemma {:induction false} DeskGraphOf(o: string)
    requires o == "desk"
    ensures WellFormedGraph(o, GraphOf(o)) && NextNodeIdOnlyAt(GraphOf(o), "phone_start")
  {
    DeskSelected(o);
    DeskWellFormed();
    NoneIsOnlyAt(DeskDialogue(), "phone_start");
  }

  lemma {:induction false} BedGraphOf(o: string)
    requires o == "bed"
    ensures WellFormedGraph(o, GraphOf(o)) && NextNodeIdOnlyAt(GraphOf(o), "phone_start")
  {
    BedSelected(o);
    BedWellFormed();
    NoneIsOnlyAt(BedDialogue(), "phone_start");
  }

  lemma {:induction false} ChairGraphOf(o: string)
    requires o == "chair"
    ensures WellFormedGraph(o, GraphOf(o)) && NextNodeIdOnlyAt(GraphOf(o), "phone_start")
  {
    ChairSelected(o);
    ChairWellFormed();
    NoneIsOnlyAt(ChairDialogue(), "phone_start");
  }

  // ---------------------------------------------------------------------------
  // Referential integrity and acyclicity, from the two-level shape

  /** The height of a node in a two-level tree: the start, an inner node, or a leaf. */
  function Rank(g: Graph, start: string, k: string): nat {
    if k == start then 2 else if k in g && Choices(g[k]) != [] then 1 else 0
  }

  /** In a two-level tree every choice leads to a node of strictly smaller rank. */
  lemma {:induction false} TwoLevelRanked(g: Graph, start: string, a: string, b: string)
    requires TwoLevel(g, start) && Edge(g, a, b)
    ensures Rank(g, start, b) < Rank(g, start, a)
  {
    var i :| 0 <= i < |Choices(g[a])| && AuthoredTarget(Choices(g[a])[i]) == Some(b);
    assert a in g;
  }

  /** Along a path in a two-level tree, the rank drops by at least one per step. */
  lemma {:induction false} RankDropsAlongPath(g: Graph, start: string, p: seq<string>)
    requires TwoLevel(g, start) && IsPath(g, p)
    ensures Rank(g, start, p[0]) >= Rank(g, start, p[|p| - 1]) + (|p| - 1)
    decreases |p|
  {
    if |p| > 1 {
      var tail := p[1..];
      assert IsPath(g, tail) by {
        forall i | 0 <= i < |tail| - 1 ensures Edge(g, tail[i], tail[i + 1]) {
          assert Edge(g, p[i + 1], p[i + 2]);
        }
      }
      RankDropsAlongPath(g, start, tail);
      assert Edge(g, p[0], p[1]);
      TwoLevelRanked(g, start, p[0], p[1]);
    }
  }

  /**
   * A two-level graph is a tree whose every choice resolves: each target is a
   * node of the graph, no walk returns to where it began, and no walk takes
   * more than two choices.
   */
  lemma {:induction false} TwoLevelIsTree(g: Graph, start: string)
    requires TwoLevel(g, start)
    ensures TargetsClosed(g)
    ensures Acyclic(g)
    ensures forall p :: IsPath(g, p) ==> |p| <= 3
  {
    forall k, i | k in g && 0 <= i < |Choices(g[k])|
      ensures AuthoredTarget(Choices(g[k])[i]).Some? && AuthoredTarget(Choices(g[k])[i]).value in g
    {
      assert k in g;
    }
    forall p | IsPath(g, p)
      ensures |p| <= 3 && (|p| >= 2 ==> p[0] != p[|p| - 1])
    {
      RankDropsAlongPath(g, start, p);
    }
  }

  // ---------------------------------------------------------------------------
  // Reachability from the start node

  /** The start node is reached by the walk that takes no choice. */
  lemma StartReached(g: Graph, start: string)
    requires start in g
    ensures Reaches(g, start, start)
  {
    assert IsPath(g, [start]);
  }

  /** The target of a choice of the start node is reached by one step. */
  lemma ReachedByOne(g: Graph, start: string, i: int, b: string)
    requires start in g && 0 <= i < |Choices(g[start])|
    requires AuthoredTarget(Choices(g[start])[i]) == Some(b)
    ensures Reaches(g, start, b)
  {
    assert Edge(g, start, b);
    assert IsPath(g, [start, b]);
  }

  /** The target of a choice of a node the start node leads to is reached by two steps. */
  lemma ReachedByTwo(g: Graph, start: string, i: int, m: string, j: int, b: string)
    requires start in g && 0 <= i < |Choices(g[start])|
    requires AuthoredTarget(Choices(g[start])[i]) == Some(m)
    requires m in g && 0 <= j < |Choices(g[m])|
    requires AuthoredTarget(Choices(g[m])[j]) == Some(b)
    ensures Reaches(g, start, b)
  {
    assert Edge(g, start, m);
    assert Edge(g, m, b);
    var p := [start, m, b];
    assert IsPath(g, p) by {
      forall n | 0 <= n < |p| - 1 ensures Edge(g, p[n], p[n + 1]) {
        if n == 1 {
          assert p[n] == m && p[n + 1] == b;
        }
      }
    }
  }
}
