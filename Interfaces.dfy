/**
 * The data types the narrative core exchanges: dialogue nodes and choices,
 * the save/restore shapes of a dialogue session and of the story state, flag
 * values, the event kinds, and the interactable objects of the room.
 */
module Interfaces {
  import opened Wrappers

  /**
   * An edge of a dialogue graph. The target may be named by `nextNodeId` or by
   * the older `nextId`; both are optional, so a choice may have no target.
   */
  datatype DialogueChoice = DialogueChoice(
    text: string,
    nextNodeId: Option<string>,
    nextId: Option<string>,
    condition: Option<string>)

  /** A dialogue node; its `choices` list is optional. The `onComplete` callback is not modelled. */
  datatype DialogueNode = DialogueNode(
    id: string,
    speaker: Option<string>,
    text: string,
    choices: Option<seq<DialogueChoice>>,
    next: Option<string>)

  /** The save/restore shape of a dialogue session. */
  datatype DialogueState = DialogueState(currentNodeId: Option<string>, history: seq<string>, isActive: bool)

  /** A story flag value: a boolean, a number (modelled as an integer) or a string. */
  datatype FlagValue = Bool(b: bool) | Num(n: int) | Str(s: string)

  /** A flag as a key/value record. */
  datatype StoryFlag = StoryFlag(key: string, value: FlagValue)

  /** The save/restore shape of the story state. */
  datatype StoryState = StoryState(flags: map<string, FlagValue>, discoveredObjects: seq<string>, currentAct: int)

  datatype DialogueEventType = DialogueStart | DialogueEnd | NodeChange

  datatype StoryEventType = FlagChanged | ObjectDiscovered | ActChanged

  /**
   * The target a content author means by a choice: `choice.nextNodeId || choice.nextId`,
   * where an empty string counts as absent, as in JavaScript.
   */
  function AuthoredTarget(c: DialogueChoice): (r: Option<string>)
    ensures r.Some? ==> r == c.nextNodeId || r == c.nextId
    ensures r.None? <==> (c.nextNodeId.None? || c.nextNodeId == Some("")) && c.nextId.None?
  {
    if c.nextNodeId.Some? && c.nextNodeId.value != "" then c.nextNodeId else c.nextId
  }

  /** A node table in which every node is stored under its own id. */
  predicate KeyedById(nodes: map<string, DialogueNode>) {
    forall k :: k in nodes ==> nodes[k].id == k
  }

  /** Both target fields are optional: a choice can name no target at all. */
  lemma ChoiceMayLackTarget()
    ensures exists c: DialogueChoice :: AuthoredTarget(c).None? && c.nextNodeId.None?
  {
    var c := DialogueChoice("", None, None, None);
    assert AuthoredTarget(c).None?;
  }

  /** The source's string name of a dialogue event kind. */
  function DialogueEventName(k: DialogueEventType): string {
    match k
    case DialogueStart => "dialogueStart"
    case DialogueEnd => "dialogueEnd"
    case NodeChange => "nodeChange"
  }

  /** The source's string name of a story event kind. */
  function StoryEventName(k: StoryEventType): string {
    match k
    case FlagChanged => "flagChanged"
    case ObjectDiscovered => "objectDiscovered"
    case ActChanged => "actChanged"
  }

  /** The two event-kind unions have exactly three members each, one per name. */
  lemma EventKindsAreThree()
    ensures forall k :: DialogueEventName(k) in {"dialogueStart", "dialogueEnd", "nodeChange"}
    ensures forall k, k' :: DialogueEventName(k) == DialogueEventName(k') ==> k == k'
    ensures |{DialogueStart, DialogueEnd, NodeChange}| == 3
    ensures forall k :: StoryEventName(k) in {"flagChanged", "objectDiscovered", "actChanged"}
    ensures forall k, k' :: StoryEventName(k) == StoryEventName(k') ==> k == k'
    ensures |{FlagChanged, ObjectDiscovered, ActChanged}| == 3
  {
  }

  /**
   * The part of a three.js `Object3D` the core reads: the identity of the mesh
   * (a reference) and `userData.interactableId` (None when there is no user data
   * or no such property).
   */
  class Mesh {
    const interactableId: Option<string>

    constructor (interactableId: Option<string>)
      ensures this.interactableId == interactableId
    {
      this.interactableId := interactableId;
    }
  }

  /**
   * An interactable object of the room. Only `examined` is ever written by the
   * core. The `onExamine` callback is represented by its invocations in the
   * interaction log.
   */
  class InteractableObject {
    const id: string
    const mesh: Mesh
    const name: string
    const description: string
    var examined: bool
    const highlightOnHover: bool

    constructor (id: string, mesh: Mesh, name: string, description: string, highlightOnHover: bool)
      ensures this.id == id && this.mesh == mesh && this.name == name
      ensures this.description == description && this.highlightOnHover == highlightOnHover
      ensures !examined
    {
      this.id := id;
      this.mesh := mesh;
      this.name := name;
      this.description := description;
      this.examined := false;
      this.highlightOnHover := highlightOnHover;
    }
  }
}
