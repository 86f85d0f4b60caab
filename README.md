# The Room Beyond — narrative core in Dafny

This project models the narrative core of *The Room Beyond*, a first-person
exploration game about agoraphobia. It covers:

- **DialogueSystem** (`DialogueSystem.dfy`, module `DialogueEngine`): the dialogue interpreter.
  - A table of nodes keyed by id, a current node, a visit history without duplicates and an active flag.
  - Choices are filtered by `visited:<id>` conditions or by an injected flag checker.
  - Three listener arrays: dialogue start, dialogue end and node change.
  - Export and import of the session.
- **StorySystem** (`StorySystem.dfy`, module `Story`): the act progression machine.
  - Story flags, the ordered set of discovered objects and the current act.
  - `act1_complete` is raised automatically after three discoveries in act 1.
  - `act2_complete` is raised once the three critical item flags are exactly `true` in act 2.
  - `transitionToAct` accepts only the next act and throws otherwise.
  - `exportState` copies the flags into a plain object, so a flag named `__proto__` is lost on export.
- **InteractionSystem** (`InteractionSystem.dfy`, module `Interaction`): the interaction registry.
  - Registered objects are kept without duplicates.
  - A hit mesh is looked up by `userData.interactableId`, falling back to mesh identity.
  - The hovered-object slot notifies unhover before hover.
  - A click calls `onExamine` and marks the object examined.
- **DialogueManager** (`DialogueManager.dfy`, module `Manager`): the glue without its DOM.
  - Loads an object's graph and starts the interpreter at `<objectId>_start`.
  - Forwards selections and schedules the delayed hide.
  - Holds the digit and Escape key handler and the `e`/`E` close handler.
- **DialogueContent** (`DialogueContent.dfy`) holds the seven authored dialogue graphs. **SimpleDialogueContent** (`SimpleDialogueContent.dfy`) holds the one-line object descriptions.
- The shared record types and event names live in `Interfaces.dfy`. The listener-array mechanics live in `Notify.dfy`.

Each operation that changes state is specified as a pure step function. The step function returns the new state and the events emitted, in order. Each class method's `ensures` ties the new fields to that function. Callback invocations are modelled as an append-only log of `Delivery(listener, event)` records, in registration order.

JavaScript truthiness is modelled where the source relies on it:

- an empty current node id means no current node;
- an empty `interactableId` falls back to identity lookup;
- an empty condition counts as no condition;
- `false`, `0` and `""` flags are falsy.

**Choice targets.** The `DialogueChoice` interface allows a target in either `nextNodeId` or `nextId`. The interpreter follows only `nextNodeId` (`src/systems/DialogueSystem.ts:64`). In the authored content, only `phone_start` writes `nextNodeId`; every other choice uses `nextId`. The model keeps the interpreter exactly as written, and the lemmas make the consequence explicit:

- `OnlyPhoneStartMoves` and `OtherObjectsStayAtStart`: selecting at any other node, or at any other object's start, changes nothing.
- `PhoneStartMoves`: only the three choices of `phone_start` lead anywhere.
- `Interfaces.AuthoredTarget` and `DialogueContent.TwoLevelIsTree` use the author's reading (`nextNodeId || nextId`) to state the referential integrity that the content tests check; the `*Rooted` lemmas state that a walk from the start node along that reading visits every node of each graph.

**The delayed hide.** After a selection, the manager schedules a hide when the session is no longer active. A selection alone makes the session inactive only through a node stored under the empty id. `getNode("")` finds such a node, so a choice whose `nextNodeId` is `""` is followed. `getCurrentNode` then returns null, because `""` is falsy, and the display update hides the dialogue and ends the session. `SelectionNeverEnds` states the other case: with no node under `""`, a selection keeps the session as it was.

## Model

| member | source | states |
|---|---|---|
| Notify.Broadcast | src/systems/StorySystem.ts:127-132 | emitting calls each listener of the array exactly once, in registration order, with the event |
| Notify.UnregisteredHearsNothing | src/systems/StorySystem.ts:127-132 | a listener that is not in the array is never called |
| Notify.RemoveFirst | src/systems/DialogueSystem.ts:153-161 | `indexOf`/`splice` removes exactly the first registration of the listener (one fewer, same multiset minus one), and leaves an array without it unchanged |
| Notify.Subscribe | src/systems/DialogueSystem.ts:146-151 | registration appends to the kind's array and touches no other kind; a kind without an array is left as is |
| Notify.Unsubscribe | src/systems/DialogueSystem.ts:153-161 | removal drops the first registration from the kind's array only |
| Notify.Emit | src/systems/DialogueSystem.ts:163-174 | an emitted event makes one delivery per listener of its kind, the i-th to the i-th registered listener, and none when the kind has no array |
| Notify.RemovedListenerHearsNothing | src/systems/DialogueSystem.ts:153-174 | a listener registered once and then removed is not called by later emits |
| Interfaces.AuthoredTarget | src/types/interfaces.ts:67-72 | the author's target `nextNodeId \|\| nextId` is one of the two fields, and is absent exactly when `nextNodeId` is absent or empty and `nextId` is absent |
| Interfaces.ChoiceMayLackTarget | src/types/interfaces.ts:67-72 | both target fields are optional, so a choice can name no target |
| Interfaces.EventKindsAreThree | src/types/interfaces.ts:80 | the dialogue event type (and likewise the story event type at line 138) has exactly three kinds, with distinct names |
| Interfaces.Mesh.constructor | src/types/interfaces.ts:47-55 | a mesh carries its optional `interactableId` |
| Interfaces.InteractableObject.constructor | src/types/interfaces.ts:47-55 | an interactable object carries its id, mesh, name, description and hover setting, not yet examined |
| DialogueEngine.CurrentNode | src/systems/DialogueSystem.ts:79-82 | the current node is the node stored under the current id; it is absent when the id is null, empty or unknown |
| DialogueEngine.StartUnknownIsNoOp | src/systems/DialogueSystem.ts:32-37 | starting at an unknown node changes nothing and emits nothing |
| DialogueEngine.StartKnown | src/systems/DialogueSystem.ts:32-43 | starting at a known node makes it current and active, adds it to the history only if absent, and emits `dialogueStart` with the node |
| DialogueEngine.EndSpec | src/systems/DialogueSystem.ts:45-51 | ending clears the current node and the active flag and emits `dialogueEnd` exactly when the session was active; ending twice emits once |
| DialogueEngine.SelectOutOfRangeIsNoOp | src/systems/DialogueSystem.ts:53-61 | with no current node, or with an index outside the available choices, a selection does nothing |
| DialogueEngine.SelectSpec | src/systems/DialogueSystem.ts:53-72 | a selection moves exactly when the chosen available choice's `nextNodeId` names a stored node; it then sets the current node, records it once, and emits `nodeChange(next, previous)`; the active flag never changes |
| DialogueEngine.NextIdOnlyIsNotFollowed | src/systems/DialogueSystem.ts:63-71 | a choice that names its target only in `nextId` is never followed |
| DialogueEngine.AvailableChoicesSpec | src/systems/DialogueSystem.ts:84-89 | the available choices are, in order, exactly the current node's choices whose condition holds; there are none without a node or a choices list |
| DialogueEngine.VisitedCondition | src/systems/DialogueSystem.ts:115-122 | `visited:X` holds exactly when X is in the history |
| DialogueEngine.FlagCondition | src/systems/DialogueSystem.ts:124-130 | any other non-empty condition is the flag checker's answer, and false without a checker |
| DialogueEngine.ApplyKeepsKeyedById | src/systems/DialogueSystem.ts:19-29 | every operation keeps each node stored under its own id |
| DialogueEngine.ApplyKeepsNoDup | src/systems/DialogueSystem.ts:104-108 | every operation keeps the history free of duplicates, unless it imports a history that has them |
| DialogueEngine.RunKeepsNoDup | src/systems/DialogueSystem.ts:104-108 | any sequence of operations keeps the history free of duplicates when every imported history is |
| DialogueEngine.RunExtendsHistory | src/systems/DialogueSystem.ts:104-108 | without clearing, importing or disposing, the history only grows at its end (first-visit order) |
| DialogueEngine.SelectionsKeepActive | src/systems/DialogueSystem.ts:53-72 | no sequence of selections changes the active flag |
| DialogueEngine.ExportImportRoundTrip | src/systems/DialogueSystem.ts:177-189 | importing an exported session reproduces it and keeps the node table |
| DialogueEngine.BranchingScenario | tests/unit/DialogueSystem.test.ts:125-135 | start, choice 0 to a node without choices, history `[start, nodeA]`, and a further selection does nothing |
| DialogueEngine.FilteringScenario | tests/unit/DialogueSystem.test.ts:311-330 | with no checker and no visit, only the unconditioned choice is available |
| DialogueEngine.DialogueSystem.constructor | src/systems/DialogueSystem.ts:11-16 | an empty interpreter with an empty listener array for each of the three kinds |
| DialogueEngine.DialogueSystem.AddNode | src/systems/DialogueSystem.ts:19-21 | stores the node under its id, replacing any node with that id |
| DialogueEngine.DialogueSystem.GetNode | src/systems/DialogueSystem.ts:23-25 | the node is found exactly when its id is stored, and carries that id |
| DialogueEngine.DialogueSystem.RemoveNode | src/systems/DialogueSystem.ts:27-29 | drops exactly that id from the table |
| DialogueEngine.DialogueSystem.ClearNodes | src/systems/DialogueManager.ts:37 | empties the node table and nothing else |
| DialogueEngine.DialogueSystem.StartDialogue | src/systems/DialogueSystem.ts:32-43 | the new state and the deliveries are those of the start step |
| DialogueEngine.DialogueSystem.EndDialogue | src/systems/DialogueSystem.ts:45-51 | the new state and the deliveries are those of the end step |
| DialogueEngine.DialogueSystem.SelectChoice | src/systems/DialogueSystem.ts:53-72 | the new state and the deliveries are those of the selection step under the current checker |
| DialogueEngine.DialogueSystem.GetCurrentNode | src/systems/DialogueSystem.ts:79-82 | the current node, stored under the current id |
| DialogueEngine.DialogueSystem.GetAvailableChoices | src/systems/DialogueSystem.ts:84-89 | every returned choice passes its condition |
| DialogueEngine.DialogueSystem.IsActive | src/systems/DialogueSystem.ts:75-77 | the session's active flag, which no selection changes |
| DialogueEngine.DialogueSystem.GetHistory | src/systems/DialogueSystem.ts:92-94 | the visit history; an id is in it exactly when `hasVisited` holds for it |
| DialogueEngine.DialogueSystem.HasVisited | src/systems/DialogueSystem.ts:96-98 | membership in the history, which agrees with the `visited:<id>` choice condition |
| DialogueEngine.DialogueSystem.ClearHistory | src/systems/DialogueSystem.ts:100-102 | empties the history and nothing else |
| DialogueEngine.DialogueSystem.SetFlagChecker | src/systems/DialogueSystem.ts:111-113 | installs the checker, leaving the session untouched |
| DialogueEngine.DialogueSystem.AddEventListener | src/systems/DialogueSystem.ts:134-151 | appends the listener to its kind's array |
| DialogueEngine.DialogueSystem.RemoveListener | src/systems/DialogueSystem.ts:153-161 | removes the listener's first registration for its kind |
| DialogueEngine.DialogueSystem.ExportState | src/systems/DialogueSystem.ts:177-183 | the exported state imports back to the current session |
| DialogueEngine.DialogueSystem.ImportState | src/systems/DialogueSystem.ts:185-189 | the session becomes the imported one; nodes, listeners and checker are kept |
| DialogueEngine.DialogueSystem.GetAllNodes | src/systems/DialogueSystem.ts:192-194 | returns every stored node exactly once |
| DialogueEngine.DialogueSystem.GetNodeCount | src/systems/DialogueSystem.ts:196-198 | the number of stored nodes |
| DialogueEngine.DialogueSystem.Dispose | src/systems/DialogueSystem.ts:200-206 | ends an active session (emitting to the old listeners), then drops nodes, history, listeners and checker |
| Story.TransitionSpec | src/systems/StorySystem.ts:64-72 | a transition succeeds exactly for the next act, and then emits `actChanged(previous, new)`; otherwise it throws `Cannot skip to act` |
| Story.TransitionRejects | src/systems/StorySystem.ts:64-72 | staying, going back and skipping ahead all throw |
| Story.RediscoveryIsNoOp | src/systems/StorySystem.ts:36-37 | discovering a known object changes nothing and emits nothing |
| Story.NewDiscovery | src/systems/StorySystem.ts:36-45 | a new discovery appends the object, keeps the set duplicate-free and the act, and first announces the new total |
| Story.CheckProgressionFrame | src/systems/StorySystem.ts:84-107 | progression only adds the completion flags that are due; discoveries, act and every other flag are kept |
| Story.Act1Completion | src/systems/StorySystem.ts:85-89 | three or more discoveries in act 1 without `act1_complete` raise it, announce it once, and allow progress |
| Story.Act2Completion | src/systems/StorySystem.ts:91-106 | in act 2, `act2_complete` is raised exactly when all three critical flags are true; otherwise nothing happens |
| Story.Act2NeedsExactlyTrue | src/systems/StorySystem.ts:98-100 | a critical flag that is truthy but not `true` (the number 1) does not complete act 2 |
| Story.CheckProgressionIdempotent | src/systems/StorySystem.ts:84-107 | a second progression check right after one does nothing |
| Story.CheckProgressionOtherActs | src/systems/StorySystem.ts:84-107 | outside acts 1 and 2 progression does nothing |
| Story.CanProgressSpec | src/systems/StorySystem.ts:74-82 | progress is possible only in act 1 or 2 with that act's completion flag exactly `true` |
| Story.SetFlagKeepsActAndDiscoveries | src/systems/StorySystem.ts:17-21 | setting a flag stores it (unless it is a completion flag that progression overrides), announces it first, and keeps act and discoveries |
| Story.OperationsKeepWellFormed | src/systems/StorySystem.ts:36-45 | setting a flag, discovering and moving acts keep every object discovered at most once |
| Story.ImportWellFormed | src/systems/StorySystem.ts:143-156 | importing yields a duplicate-free discovery set holding every listed object |
| Story.ExportImportRoundTrip | src/systems/StorySystem.ts:135-156 | importing an exported well-formed state reproduces it except for a `__proto__` flag, which the plain-object copy loses; without that flag the round trip is exact |
| Story.ThreeDiscoveriesScenario | tests/unit/StorySystem.test.ts:66-73 | the third discovery raises `act1_complete`, announced right after the discovery, and progress becomes possible |
| Story.Act2Scenario | tests/unit/StorySystem.test.ts:75-95 | act 3 cannot be reached from act 1; in act 2 the third critical flag completes it |
| Story.StorySystem.constructor | src/systems/StorySystem.ts:9-14 | act 1, no flags, no discoveries, an empty array per event kind |
| Story.StorySystem.Emit | src/systems/StorySystem.ts:127-132 | calls the kind's listeners and changes no state |
| Story.StorySystem.SetFlag | src/systems/StorySystem.ts:17-21 | the new state and deliveries are those of the flag step |
| Story.StorySystem.GetFlag | src/systems/StorySystem.ts:23-25 | the stored value, absent exactly when the flag is unset |
| Story.StorySystem.GetAllFlags | src/systems/StorySystem.ts:27-33 | every flag with its value, except a `__proto__` flag, which assignment into a plain object does not store |
| Story.StorySystem.IsDiscovered | src/systems/StorySystem.ts:47-49 | membership in the discovered objects; discovering such an object again changes nothing and emits nothing |
| Story.StorySystem.GetCurrentAct | src/systems/StorySystem.ts:60-62 | the current act, from which a successful transition leads only to the act after it |
| Story.StorySystem.CanProgressToNextAct | src/systems/StorySystem.ts:74-82 | true exactly in act 1 with `act1_complete` exactly true or in act 2 with `act2_complete` exactly true; the transition to the next act then succeeds |
| Story.StorySystem.DiscoverObject | src/systems/StorySystem.ts:36-45 | the new state and deliveries are those of the discovery step |
| Story.StorySystem.GetDiscoveredCount | src/systems/StorySystem.ts:51-53 | the number of distinct discovered objects |
| Story.StorySystem.GetDiscoveredObjects | src/systems/StorySystem.ts:55-57 | a duplicate-free copy holding exactly the discovered objects |
| Story.StorySystem.TransitionToAct | src/systems/StorySystem.ts:64-72 | moves and emits for the next act; otherwise returns the error and changes nothing |
| Story.StorySystem.CheckActProgression | src/systems/StorySystem.ts:84-107 | the new state and deliveries are those of the progression step |
| Story.StorySystem.On | src/systems/StorySystem.ts:110-115 | appends the listener to its kind's array |
| Story.StorySystem.Off | src/systems/StorySystem.ts:117-125 | removes the listener's first registration for its kind |
| Story.StorySystem.ExportState | src/systems/StorySystem.ts:135-141 | the discoveries and act as they are and the flags as `getAllFlags` copies them; importing it restores the current state except for a `__proto__` flag |
| Story.CopyFlags | src/systems/StorySystem.ts:147-149 | setting every imported entry into the cleared map reproduces the given flags exactly |
| Story.AddEachObject | src/systems/StorySystem.ts:151-153 | adding every imported id to the cleared Set yields the ids without duplicates, in first-occurrence order |
| Story.StorySystem.ImportState | src/systems/StorySystem.ts:143-156 | replaces flags, discoveries (deduplicated, in order) and act; listeners are kept |
| Interaction.RegisterSpec | src/systems/InteractionSystem.ts:98-102 | registering appends exactly when the object is not yet registered, and keeps the registry duplicate-free |
| Interaction.UnregisterSpec | src/systems/InteractionSystem.ts:104-106 | unregistering removes every object with the id and keeps all others, in order |
| Interaction.ObjectByIdSpec | src/systems/InteractionSystem.ts:112-116 | a mesh with an `interactableId` finds the first registered object with that id, and none exactly when no object has it |
| Interaction.ObjectByIdentitySpec | src/systems/InteractionSystem.ts:118-120 | a mesh without one finds the first registered object owning that mesh, and none exactly when no object does |
| Interaction.HoverSpec | src/systems/InteractionSystem.ts:71-87 | re-hovering notifies nobody; otherwise the previous object is unhovered before the new one is hovered |
| Interaction.HoverTwice | src/systems/InteractionSystem.ts:71-72 | hovering the same object twice notifies as often as hovering it once |
| Interaction.InteractionSystem.constructor | src/systems/InteractionSystem.ts:4-12 | nothing registered, nothing hovered, no callbacks |
| Interaction.InteractionSystem.SetHoveredObject | src/systems/InteractionSystem.ts:71-87 | sets the slot and delivers the hover notifications to their arrays |
| Interaction.InteractionSystem.ClearHoveredObject | src/systems/InteractionSystem.ts:93-95 | empties the slot, unhovering the previous object |
| Interaction.InteractionSystem.RegisterObject | src/systems/InteractionSystem.ts:98-102 | the registry becomes the registered sequence |
| Interaction.InteractionSystem.GetHoveredObject | src/systems/InteractionSystem.ts:89-91 | the object in the hover slot; hovering it again notifies nobody |
| Interaction.InteractionSystem.GetRegisteredObjects | src/systems/InteractionSystem.ts:108-110 | the registry in registration order, without duplicates, so registering a listed object again changes nothing |
| Interaction.InteractionSystem.UnregisterObject | src/systems/InteractionSystem.ts:104-106 | the registry becomes the filtered sequence |
| Interaction.InteractionSystem.GetObjectByMesh | src/systems/InteractionSystem.ts:112-120 | a found object is registered and matches the mesh's id, or the mesh itself |
| Interaction.InteractionSystem.OnHover | src/systems/InteractionSystem.ts:123-125 | appends a hover callback |
| Interaction.InteractionSystem.OnUnhover | src/systems/InteractionSystem.ts:127-129 | appends an unhover callback |
| Interaction.InteractionSystem.OnClick | src/systems/InteractionSystem.ts:131-133 | appends a click callback |
| Interaction.InteractionSystem.HandleClick | src/systems/InteractionSystem.ts:148-152 | calls `onExamine` once, marks the object examined, then calls every click callback once |
| Interaction.InteractionSystem.Dispose | src/systems/InteractionSystem.ts:172-178 | unhovers, then empties the registry and the callback arrays |
| DialogueContent.PhoneDialogue | src/content/DialogueContent.ts:12-98 | the phone graph, with `phone_start` stored under its id |
| DialogueContent.PhoneKeyedById | src/content/DialogueContent.ts:12-98 | every phone node is stored under its own id |
| DialogueContent.PhoneTwoLevel | src/content/DialogueContent.ts:12-98 | the phone graph is a two-level tree from `phone_start` |
| DialogueContent.PhoneStartBranches | src/content/DialogueContent.ts:15-23 | `phone_start` offers at least two choices with non-empty, distinct texts |
| DialogueContent.PhoneNextNodeId | src/content/DialogueContent.ts:19-23 | only `phone_start` writes `nextNodeId` |
| DialogueContent.PhoneWellFormed | src/content/DialogueContent.ts:12-98 | the phone graph is well formed: start present, keyed by id, targets closed, acyclic, every node reached from `phone_start`, with a terminal node |
| DialogueContent.PhoneReaches | src/content/DialogueContent.ts:12-98 | each node of the phone graph is reached from `phone_start` by a walk of at most two authored choices |
| DialogueContent.PhoneRooted | src/content/DialogueContent.ts:12-98 | the phone graph has no orphan node: every node is reached from `phone_start` |
| DialogueContent.LaptopDialogue | src/content/DialogueContent.ts:104-181 | the laptop graph, with `laptop_start` stored under its id |
| DialogueContent.LaptopKeyedById | src/content/DialogueContent.ts:104-181 | every laptop node is stored under its own id |
| DialogueContent.LaptopTwoLevel | src/content/DialogueContent.ts:104-181 | the laptop graph is a two-level tree from `laptop_start` |
| DialogueContent.LaptopStartBranches | src/content/DialogueContent.ts:104-181 | `laptop_start` offers at least two choices with non-empty, distinct texts |
| DialogueContent.LaptopNextNodeId | src/content/DialogueContent.ts:104-181 | no laptop choice writes `nextNodeId` |
| DialogueContent.LaptopWellFormed | src/content/DialogueContent.ts:104-181 | the laptop graph is well formed: start present, keyed by id, targets closed, acyclic, every node reached from `laptop_start`, with a terminal node |
| DialogueContent.LaptopReaches | src/content/DialogueContent.ts:104-181 | each node of the laptop graph is reached from `laptop_start` by a walk of at most two authored choices |
| DialogueContent.LaptopRooted | src/content/DialogueContent.ts:104-181 | the laptop graph has no orphan node: every node is reached from `laptop_start` |
| DialogueContent.VrHeadsetDialogue | src/content/DialogueContent.ts:187-273 | the VR headset graph, with `vr_headset_start` stored under its id |
| DialogueContent.VrHeadsetKeyedById | src/content/DialogueContent.ts:187-273 | every VR headset node is stored under its own id |
| DialogueContent.VrHeadsetTwoLevel | src/content/DialogueContent.ts:187-273 | the VR headset graph is a two-level tree |
| DialogueContent.VrHeadsetStartBranches | src/content/DialogueContent.ts:187-273 | its start offers at least two choices with non-empty, distinct texts |
| DialogueContent.VrHeadsetNextNodeId | src/content/DialogueContent.ts:187-273 | no VR headset choice writes `nextNodeId` |
| DialogueContent.VrHeadsetWellFormed | src/content/DialogueContent.ts:187-273 | the VR headset graph is well formed: start present, keyed by id, targets closed, acyclic, every node reached from `vr_headset_start`, with a terminal node |
| DialogueContent.VrHeadsetReaches | src/content/DialogueContent.ts:187-273 | each node of the VR headset graph is reached from `vr_headset_start` by a walk of at most two authored choices |
| DialogueContent.VrHeadsetRooted | src/content/DialogueContent.ts:187-273 | the VR headset graph has no orphan node: every node is reached from `vr_headset_start` |
| DialogueContent.AlarmClockDialogue | src/content/DialogueContent.ts:279-365 | the alarm clock graph, with `alarm_clock_start` stored under its id |
| DialogueContent.AlarmClockKeyedById | src/content/DialogueContent.ts:279-365 | every alarm clock node is stored under its own id |
| DialogueContent.AlarmClockTwoLevel | src/content/DialogueContent.ts:279-365 | the alarm clock graph is a two-level tree |
| DialogueContent.AlarmClockStartBranches | src/content/DialogueContent.ts:279-365 | its start offers at least two choices with non-empty, distinct texts |
| DialogueContent.AlarmClockNextNodeId | src/content/DialogueContent.ts:279-365 | no alarm clock choice writes `nextNodeId` |
| DialogueContent.AlarmClockWellFormed | src/content/DialogueContent.ts:279-365 | the alarm clock graph is well formed: start present, keyed by id, targets closed, acyclic, every node reached from `alarm_clock_start`, with a terminal node |
| DialogueContent.AlarmClockReaches | src/content/DialogueContent.ts:279-365 | each node of the alarm clock graph is reached from `alarm_clock_start` by a walk of at most two authored choices |
| DialogueContent.AlarmClockRooted | src/content/DialogueContent.ts:279-365 | the alarm clock graph has no orphan node: every node is reached from `alarm_clock_start` |
| DialogueContent.DeskDialogue | src/content/DialogueContent.ts:371-457 | the desk graph, with `desk_start` stored under its id |
| DialogueContent.DeskKeyedById | src/content/DialogueContent.ts:371-457 | every desk node is stored under its own id |
| DialogueContent.DeskTwoLevel | src/content/DialogueContent.ts:371-457 | the desk graph is a two-level tree |
| DialogueContent.DeskStartBranches | src/content/DialogueContent.ts:371-457 | its start offers at least two choices with non-empty, distinct texts |
| DialogueContent.DeskNextNodeId | src/content/DialogueContent.ts:371-457 | no desk choice writes `nextNodeId` |
| DialogueContent.DeskWellFormed | src/content/DialogueContent.ts:371-457 | the desk graph is well formed: start present, keyed by id, targets closed, acyclic, every node reached from `desk_start`, with a terminal node |
| DialogueContent.DeskReaches | src/content/DialogueContent.ts:371-457 | each node of the desk graph is reached from `desk_start` by a walk of at most two authored choices |
| DialogueContent.DeskRooted | src/content/DialogueContent.ts:371-457 | the desk graph has no orphan node: every node is reached from `desk_start` |
| DialogueContent.BedDialogue | src/content/DialogueContent.ts:463-549 | the bed graph, with `bed_start` stored under its id |
| DialogueContent.BedKeyedById | src/content/DialogueContent.ts:463-549 | every bed node is stored under its own id |
| DialogueContent.BedTwoLevel | src/content/DialogueContent.ts:463-549 | the bed graph is a two-level tree |
| DialogueContent.BedStartBranches | src/content/DialogueContent.ts:463-549 | its start offers at least two choices with non-empty, distinct texts |
| DialogueContent.BedNextNodeId | src/content/DialogueContent.ts:463-549 | no bed choice writes `nextNodeId` |
| DialogueContent.BedWellFormed | src/content/DialogueContent.ts:463-549 | the bed graph is well formed: start present, keyed by id, targets closed, acyclic, every node reached from `bed_start`, with a terminal node |
| DialogueContent.BedReaches | src/content/DialogueContent.ts:463-549 | each node of the bed graph is reached from `bed_start` by a walk of at most two authored choices |
| DialogueContent.BedRooted | src/content/DialogueContent.ts:463-549 | the bed graph has no orphan node: every node is reached from `bed_start` |
| DialogueContent.ChairDialogue | src/content/DialogueContent.ts:555-641 | the chair graph, with `chair_start` stored under its id |
| DialogueContent.ChairKeyedById | src/content/DialogueContent.ts:555-641 | every chair node is stored under its own id |
| DialogueContent.ChairTwoLevel | src/content/DialogueContent.ts:555-641 | the chair graph is a two-level tree |
| DialogueContent.ChairStartBranches | src/content/DialogueContent.ts:555-641 | its start offers at least two choices with non-empty, distinct texts |
| DialogueContent.ChairNextNodeId | src/content/DialogueContent.ts:555-641 | no chair choice writes `nextNodeId` |
| DialogueContent.ChairWellFormed | src/content/DialogueContent.ts:555-641 | the chair graph is well formed: start present, keyed by id, targets closed, acyclic, every node reached from `chair_start`, with a terminal node |
| DialogueContent.ChairReaches | src/content/DialogueContent.ts:555-641 | each node of the chair graph is reached from `chair_start` by a walk of at most two authored choices |
| DialogueContent.ChairRooted | src/content/DialogueContent.ts:555-641 | the chair graph has no orphan node: every node is reached from `chair_start` |
| DialogueContent.SevenObjects | src/content/DialogueContent.ts:647-659 | seven distinct objects have a dialogue |
| DialogueContent.AllDialogue | src/content/DialogueContent.ts:647-659 | `getAllDialogue` maps exactly the seven object ids |
| DialogueContent.AllDialogueWellFormed | src/content/DialogueContent.ts:647-659 | every graph it maps is well formed, including every node reached from its start node, and only `phone_start` writes `nextNodeId` |
| DialogueContent.PhoneStartNode | src/content/DialogueContent.ts:15-23 | `phone_start` has three unconditioned choices whose `nextNodeId` names a node of the phone graph |
| DialogueContent.PhoneStartChoices | src/content/DialogueContent.ts:15-23 | the same facts about the graph `getAllDialogue` maps the phone to |
| DialogueContent.StartReached | tests/unit/DialogueContent.test.ts:266-291 | the traversal visits the start node itself |
| DialogueContent.ReachedByOne | tests/unit/DialogueContent.test.ts:266-291 | the traversal visits the target of each start choice, read from `nextNodeId` or else `nextId` |
| DialogueContent.ReachedByTwo | tests/unit/DialogueContent.test.ts:266-291 | the traversal visits the target of each choice of a node the start leads to |
| DialogueContent.TwoLevelIsTree | tests/unit/DialogueContent.test.ts:226-241 | in a two-level graph every choice target is a node of the graph, no walk returns to its start, and no walk takes more than two choices |
| SimpleDialogueContent.GetObjectDescription | src/content/SimpleDialogueContent.ts:28-30 | the stored description when it is non-empty, and null otherwise |
| SimpleDialogueContent.DescribedObjects | src/content/SimpleDialogueContent.ts:7-21 | exactly the seven dialogue objects have descriptions |
| SimpleDialogueContent.UnknownHasNoDescription | tests/unit/SimpleDialogueContent.test.ts:68-72 | any other id has no description |
| SimpleDialogueContent.PhoneMentioned | tests/unit/SimpleDialogueContent.test.ts:5-12 | the phone description contains "phone", ignoring case |
| SimpleDialogueContent.LaptopMentioned | tests/unit/SimpleDialogueContent.test.ts:14-21 | the laptop description contains "laptop" |
| SimpleDialogueContent.VrHeadsetMentioned | tests/unit/SimpleDialogueContent.test.ts:23-30 | the VR headset description contains "vr", ignoring case |
| SimpleDialogueContent.AlarmClockMentioned | tests/unit/SimpleDialogueContent.test.ts:32-39 | the alarm clock description contains "clock" |
| SimpleDialogueContent.DeskMentioned | tests/unit/SimpleDialogueContent.test.ts:41-48 | the desk description contains "desk" |
| SimpleDialogueContent.BedMentioned | tests/unit/SimpleDialogueContent.test.ts:50-57 | the bed description contains "bed" |
| SimpleDialogueContent.ChairMentioned | tests/unit/SimpleDialogueContent.test.ts:59-66 | the chair description contains "chair" |
| SimpleDialogueContent.DescriptionsMentionObjects | tests/unit/SimpleDialogueContent.test.ts:117-129 | every description is between 31 and 299 characters long and mentions its object, ignoring case |
| Manager.AllDialogueKeyedById | src/systems/DialogueManager.ts:21 | the graphs the manager loads are all keyed by id |
| Manager.LeadingValue | src/systems/DialogueManager.ts:255 | `parseInt` of the leading decimal digits: the value read so far when no digit follows, and at least ten times it plus the next digit otherwise |
| Manager.DigitChoice | src/systems/DialogueManager.ts:254-259 | a selected index is below the number of available choices, and the key lies between '1' and '9' |
| Manager.DigitKeySpec | src/systems/DialogueManager.ts:254-259 | a one-character key selects index k-1 exactly when it is a digit k from 1 to 9 with k-1 below the choice count |
| Manager.EscapeSelectsNothing | src/systems/DialogueManager.ts:254-266 | the named keys "Escape" and "Enter" never select a choice |
| Manager.NavigationKeySpec | src/systems/DialogueManager.ts:249-267 | Escape hides, an in-range digit selects that choice, and an out-of-range digit or any other single character does nothing |
| Manager.StartWithoutGraph | src/systems/DialogueManager.ts:30-34 | an object without a graph starts nothing and changes nothing |
| Manager.StartWithGraph | src/systems/DialogueManager.ts:29-53 | an object whose graph is keyed by node id and has its start node loads that graph, becomes current, and is active at `<objectId>_start`, recorded once, with one `dialogueStart` |
| Manager.StartWithoutStartNode | src/systems/DialogueManager.ts:29-53 | a graph keyed by node id but without its start node is loaded; if no node is current, the display hides it, which forgets the object and ends the session |
| Manager.LoadGraphIsAddEach | src/systems/DialogueManager.ts:36-42 | emptying the node table and adding every node of a graph keyed by id, in any order, with `addNode` leaves exactly that graph |
| Manager.AuthoredObjectsStart | src/systems/DialogueManager.ts:29-53 | each of the seven objects starts active at its own start node with its own graph loaded |
| Manager.HideSpec | src/systems/DialogueManager.ts:310-325 | hiding forgets the object and ends the session, emitting `dialogueEnd` only when it was active; `e` and `E` hide |
| Manager.SelectionNeverEnds | src/systems/DialogueManager.ts:58-68 | with a current node and no node stored under the empty id, a selection keeps the object and the active flag, so the delayed hide is scheduled exactly when the session was already inactive |
| Manager.OnlyStartNodeMoves | src/systems/DialogueSystem.ts:63-71 | in a table where only `phone_start` writes `nextNodeId`, a selection at any other node changes nothing |
| Manager.OnlyPhoneStartMoves | src/systems/DialogueSystem.ts:63-71 | in every authored graph, a selection anywhere but `phone_start` changes nothing |
| Manager.UnconditionedChoiceMoves | src/systems/DialogueManager.ts:58-68 | at a node whose choices are unconditioned, a choice naming a stored node moves there and keeps the session and the object |
| Manager.StartThenFollow | src/systems/DialogueManager.ts:29-68 | after starting an object, an unconditioned start choice with a stored `nextNodeId` is followed |
| Manager.PhoneStartMoves | src/systems/DialogueManager.ts:29-68 | after starting the phone, choices 1, 2 and 3 lead to `phone_connected`, `phone_peaceful` and `phone_anxiety` |
| Manager.StartThenStay | src/systems/DialogueManager.ts:29-68 | after starting an object other than the phone whose graph writes `nextNodeId` only at `phone_start`, any selection changes nothing |
| Manager.OtherObjectsStayAtStart | src/systems/DialogueManager.ts:29-68 | the six objects other than the phone never leave their start node by selection |
| Manager.StartObjectAsWritten | src/systems/DialogueManager.ts:37 | as written, starting an object with a graph throws a TypeError before loading anything |
| Manager.AsWrittenNeverStarts | src/systems/DialogueManager.ts:29-53 | as written, no call ever reports a started dialogue; starting the phone throws |
| Manager.DialogueManager.constructor | src/systems/DialogueManager.ts:19-24 | a fresh interpreter, the authored graphs, no current object |
| Manager.DialogueManager.StartObjectDialogue | src/systems/DialogueManager.ts:29-53 | returns true exactly for an object with a graph; the new state and deliveries are those of the start step |
| Manager.DialogueManager.SelectChoice | src/systems/DialogueManager.ts:58-68 | the new state and deliveries are those of the selection step; returns whether the delayed hide was scheduled |
| Manager.DialogueManager.UpdateDialogueDisplay | src/systems/DialogueManager.ts:126-140 | hides when there is no current node, and otherwise changes no state |
| Manager.DialogueManager.HideDialogueUI | src/systems/DialogueManager.ts:310-325 | forgets the object and ends the session |
| Manager.DialogueManager.NavigationKey | src/systems/DialogueManager.ts:248-270 | the effect of one key press on the navigation handler |
| Manager.DialogueManager.CloseKey | src/systems/DialogueManager.ts:275-284 | the effect of one key press on the close handler |
| Manager.DialogueManager.IsActive | src/systems/DialogueManager.ts:339-341 | the interpreter's active flag |
| Manager.DialogueManager.GetCurrentObjectId | src/systems/DialogueManager.ts:347-349 | the object whose dialogue is current |
| Manager.DialogueManager.Dispose | src/systems/DialogueManager.ts:353-359 | disposes of the interpreter: an active session ends with one `dialogueEnd` delivered to the listeners registered before, then nodes, history, listeners and checker are dropped; the current object is kept |

## Left out

- Raycasting (`checkInteraction`), material highlighting and the `update` hook of InteractionSystem depend on three.js geometry, materials and floating point.
- `isWithinInteractionDistance` needs floating-point vector distance.
- The DOM side of DialogueManager is left out: creating, showing and animating the container, the typewriter effect, choice buttons and the continue button. Each key handler's registration and removal are also left out. A key press is modelled as one call of the handler.
- Manager.DialogueManager.SelectChoice: the one-second `setTimeout` before the hide is not modelled. The method returns whether that hide is scheduled.
- Manager.DialogueManager.Dispose: removing the container from the document body is not modelled.
- Story.TransitionStep and Story.TransitionRejects: acts are unbounded integers. The source's acts are JavaScript numbers, so from an imported `currentAct` of 2^53 or more, where `currentAct + 1 === currentAct`, the source accepts a "transition" to the same act; fractional acts are not modelled either.
- DialogueEngine.SelectChoiceStep: the choice index is an integer. A fractional index such as 0.5 passes the source's range check and then fails with a TypeError on the undefined choice; that path is not modelled.
- DialogueEngine.FlagChecker: the injected flag checker is a fixed pure function from flag name to boolean. The source stores an arbitrary callback, which may read changing state, throw or have effects; its calls are not recorded.
- Manager.StartWithGraph and Manager.StartWithoutStartNode: stated for graphs keyed by node id, the only graphs the manager holds. `LoadGraph` installs a graph as it is; for a graph whose keys differ from its nodes' ids, the source's `addNode` loop would re-key the nodes, and that re-keying is not modelled.
- The node texts of the dialogue graphs are left empty. Ids, speakers, choice texts, targets and conditions are modelled exactly.
- `onComplete` node callbacks are never invoked by the core and are left out.
- `onExamine` is represented by the object appended to `examineCalls`.
- Callbacks are represented by listener identities. Their effects are outside the core.
- Console warnings are left out.
- Story flag values are booleans, integers or strings. The source's JavaScript numbers are floating point.
- Interfaces that no core operation uses are not part of this model: `Entity`, `Component`, `EventEmitter`, `GameState`, `Command`, `Scene`, `SaveData`, `AudioConfig`, `AccessibilitySettings` and `DiscoveryProgress`.
- DialogueEngine.DialogueSystem.GetAllNodes: the result is not pinned to the Map's insertion order. The method promises each node once, in some order.
- DialogueEngine.DialogueSystem.ClearNodes: the source's interpreter has no such member. This is the corrected operation described under Findings.
- Manager.DialogueManager.StartObjectDialogue: it uses `ClearNodes` rather than the throwing call (see Findings). Nodes are loaded in an unspecified key order, which does not affect the resulting table.

## Findings

| source | as written | input that shows it | evidently intended | confidence | as-written member | corrected member |
|---|---|---|---|---|---|---|
| src/systems/DialogueManager.ts:37 | `startObjectDialogue` calls `this.dialogueSystem.clearNodes()`, but DialogueSystem defines no `clearNodes`, so the call throws a TypeError before any node is loaded | `startObjectDialogue("phone")` with the authored graphs | empty the interpreter's node table, then load the object's graph and start at `<objectId>_start` | high; not executed | Manager.AsWrittenNeverStarts | Manager.AuthoredObjectsStart |
