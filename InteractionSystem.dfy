/**
 * The interaction registry and hover machine: the objects registered for
 * interaction (each at most once), the lookup from a hit mesh to its object,
 * the hovered-object slot with its unhover-then-hover notifications, and
 * click handling, which marks an object examined.
 */
module Interaction {
  import opened Wrappers
  import opened Seqs
  import opened Notify
  import opened Interfaces

  /** The payloads of the three callback arrays. */
  datatype InteractionEvent =
    | Hovered(target: InteractableObject)
    | Unhovered(target: InteractableObject)
    | Clicked(target: InteractableObject)

  /** `registerObject`: appends the object unless that same object is already registered. */
  function Register(objects: seq<InteractableObject>, o: InteractableObject): seq<InteractableObject> {
    Insert(objects, o)
  }

  /** `obj.id !== objectId`. */
  function KeepsId(objectId: string): InteractableObject -> bool {
    (o: InteractableObject) => o.id != objectId
  }

  /** `unregisterObject`: drops every object carrying the id. */
  function Unregister(objects: seq<InteractableObject>, objectId: string): seq<InteractableObject> {
    Filter(objects, KeepsId(objectId))
  }

  /** `mesh.userData.interactableId` is truthy: present and not the empty string. */
  predicate HasInteractableId(mesh: Mesh) {
    mesh.interactableId.Some? && mesh.interactableId.value != ""
  }

  /**
   * `getObjectByMesh`: by the mesh's `interactableId` when it has one,
   * otherwise by mesh identity; the first match, or None.
   */
  function ObjectByMesh(objects: seq<InteractableObject>, mesh: Mesh): Option<InteractableObject> {
    var found :=
      if HasInteractableId(mesh) then FirstIndex(objects, (o: InteractableObject) => o.id == mesh.interactableId.value)
      else FirstIndex(objects, (o: InteractableObject) => o.mesh == mesh);
    match found
    case None => None
    case Some(i) => Some(objects[i])
  }

  /** The notifications of `setHoveredObject(next)` when `previous` is hovered. */
  function HoverEvents(previous: InteractableObject?, next: InteractableObject?): seq<InteractionEvent> {
    if previous == next then []
    else (if previous != null then [Unhovered(previous)] else [])
         + (if next != null then [Hovered(next)] else [])
  }

  /** The listener array each kind of notification goes to. */
  function Deliver(hover: seq<ListenerId>, unhover: seq<ListenerId>, click: seq<ListenerId>,
                   events: seq<InteractionEvent>): seq<Delivery<InteractionEvent>>
  {
    if events == [] then []
    else Broadcast(ListenersFor(hover, unhover, click, events[0]), events[0]) + Deliver(hover, unhover, click, events[1..])
  }

  function ListenersFor(hover: seq<ListenerId>, unhover: seq<ListenerId>, click: seq<ListenerId>,
                        e: InteractionEvent): seq<ListenerId>
  {
    match e
    case Hovered(_) => hover
    case Unhovered(_) => unhover
    case Clicked(_) => click
  }

  // ---------------------------------------------------------------------------
  // Properties of the registry and the hover machine

  /** Registering keeps the existing order, and appends exactly when the object is new. */
  lemma RegisterSpec(objects: seq<InteractableObject>, o: InteractableObject)
    ensures o in objects ==> Register(objects, o) == objects
    ensures o !in objects ==> Register(objects, o) == objects + [o]
    ensures NoDup(objects) ==> NoDup(Register(objects, o))
  {
  }

  /** Unregistering removes every object with the id and keeps the others in order. */
  lemma {:induction false} UnregisterSpec(objects: seq<InteractableObject>, objectId: string)
    ensures var r := Unregister(objects, objectId);
      && (forall i :: 0 <= i < |r| ==> r[i].id != objectId)
      && (forall i :: 0 <= i < |objects| && objects[i].id != objectId ==> objects[i] in r)
      && IsSubsequence(r, objects)
    ensures NoDup(objects) ==> NoDup(Unregister(objects, objectId))
  {
    FilterIsSubsequence(objects, KeepsId(objectId));
    if NoDup(objects) {
      FilterKeepsNoDup(objects, KeepsId(objectId));
    }
  }

  /** A mesh with an id finds the first object with that id, and None exactly when there is none. */
  lemma ObjectByIdSpec(objects: seq<InteractableObject>, mesh: Mesh)
    requires HasInteractableId(mesh)
    ensures var r := ObjectByMesh(objects, mesh);
      && (r.None? <==> forall i :: 0 <= i < |objects| ==> objects[i].id != mesh.interactableId.value)
      && (r.Some? ==> exists i :: 0 <= i < |objects| && objects[i] == r.value
                        && r.value.id == mesh.interactableId.value
                        && forall j :: 0 <= j < i ==> objects[j].id != mesh.interactableId.value)
  {
  }

  /** A mesh without an id (or with an empty one) finds the first object owning that mesh. */
  lemma ObjectByIdentitySpec(objects: seq<InteractableObject>, mesh: Mesh)
    requires !HasInteractableId(mesh)
    ensures var r := ObjectByMesh(objects, mesh);
      && (r.None? <==> forall i :: 0 <= i < |objects| ==> objects[i].mesh != mesh)
      && (r.Some? ==> exists i :: 0 <= i < |objects| && objects[i] == r.value && r.value.mesh == mesh
                        && forall j :: 0 <= j < i ==> objects[j].mesh != mesh)
  {
  }

  /**
   * Re-hovering the hovered object notifies nobody; otherwise the previous
   * object, if any, is unhovered strictly before the new one, if any, is hovered.
   */
  lemma HoverSpec(previous: InteractableObject?, next: InteractableObject?)
    ensures previous == next ==> HoverEvents(previous, next) == []
    ensures previous != next && previous != null && next != null ==>
      HoverEvents(previous, next) == [Unhovered(previous), Hovered(next)]
    ensures previous != next && previous == null ==> HoverEvents(previous, next) == [Hovered(next)]
    ensures previous != next && next == null ==> HoverEvents(previous, next) == [Unhovered(previous)]
  {
  }

  /** Hovering the same object twice notifies only once. */
  lemma HoverTwice(previous: InteractableObject?, next: InteractableObject?)
    ensures HoverEvents(previous, next) + HoverEvents(next, next) == HoverEvents(previous, next)
  {
  }

  // ---------------------------------------------------------------------------
  // The stateful registry

  class InteractionSystem {
    var registeredObjects: seq<InteractableObject>
    var hoveredObject: InteractableObject?
    var hoverCallbacks: seq<ListenerId>
    var unhoverCallbacks: seq<ListenerId>
    var clickCallbacks: seq<ListenerId>
    /** Every callback invocation so far, in order. */
    var log: seq<Delivery<InteractionEvent>>
    /** The objects whose `onExamine` has been called, in order. */
    var examineCalls: seq<InteractableObject>

    ghost predicate Valid()
      reads this
    {
      NoDup(registeredObjects)
    }

    constructor ()
      ensures Valid() && registeredObjects == [] && hoveredObject == null
      ensures hoverCallbacks == [] && unhoverCallbacks == [] && clickCallbacks == []
      ensures log == [] && examineCalls == []
    {
      registeredObjects := [];
      hoveredObject := null;
      hoverCallbacks := [];
      unhoverCallbacks := [];
      clickCallbacks := [];
      log := [];
      examineCalls := [];
    }

    /** `setHoveredObject`: afterwards the slot holds `o`, and the notifications of the change went out. */
    method SetHoveredObject(o: InteractableObject?)
      modifies this
      ensures hoveredObject == o
      ensures log == old(log) + Deliver(hoverCallbacks, unhoverCallbacks, clickCallbacks, HoverEvents(old(hoveredObject), o))
      ensures registeredObjects == old(registeredObjects) && examineCalls == old(examineCalls)
      ensures hoverCallbacks == old(hoverCallbacks) && unhoverCallbacks == old(unhoverCallbacks)
      ensures clickCallbacks == old(clickCallbacks)
    {
      if hoveredObject == o {
        return;
      }
      var previous := hoveredObject;
      if previous != null {
        log := log + Broadcast(unhoverCallbacks, Unhovered(previous));
      }
      hoveredObject := o;
      if o != null {
        log := log + Broadcast(hoverCallbacks, Hovered(o));
      }
      if previous != null && o != null {
        var events := [Unhovered(previous), Hovered(o)];
        assert events[1..] == [Hovered(o)];
        assert Deliver(hoverCallbacks, unhoverCallbacks, clickCallbacks, events)
            == Broadcast(unhoverCallbacks, Unhovered(previous)) + Deliver(hoverCallbacks, unhoverCallbacks, clickCallbacks, [Hovered(o)]);
      }
    }

    /** `getHoveredObject`: the object in the hover slot, `null` when nothing is hovered. */
    function GetHoveredObject(): (r: InteractableObject?)
      reads this
      ensures r == hoveredObject
      ensures HoverEvents(r, r) == []
    {
      hoveredObject
    }

    /** `clearHoveredObject`: the slot is left empty. */
    method ClearHoveredObject()
      modifies this
      ensures hoveredObject == null
      ensures log == old(log) + Deliver(hoverCallbacks, unhoverCallbacks, clickCallbacks, HoverEvents(old(hoveredObject), null))
      ensures registeredObjects == old(registeredObjects) && examineCalls == old(examineCalls)
      ensures hoverCallbacks == old(hoverCallbacks) && unhoverCallbacks == old(unhoverCallbacks)
      ensures clickCallbacks == old(clickCallbacks)
    {
      SetHoveredObject(null);
    }

    method RegisterObject(o: InteractableObject)
      requires Valid()
      modifies this
      ensures Valid()
      ensures registeredObjects == Register(old(registeredObjects), o)
      ensures hoveredObject == old(hoveredObject) && log == old(log) && examineCalls == old(examineCalls)
      ensures hoverCallbacks == old(hoverCallbacks) && unhoverCallbacks == old(unhoverCallbacks)
      ensures clickCallbacks == old(clickCallbacks)
    {
      if o !in registeredObjects {
        registeredObjects := registeredObjects + [o];
      }
    }

    method UnregisterObject(objectId: string)
      requires Valid()
      modifies this
      ensures Valid()
      ensures registeredObjects == Unregister(old(registeredObjects), objectId)
      ensures hoveredObject == old(hoveredObject) && log == old(log) && examineCalls == old(examineCalls)
      ensures hoverCallbacks == old(hoverCallbacks) && unhoverCallbacks == old(unhoverCallbacks)
      ensures clickCallbacks == old(clickCallbacks)
    {
      UnregisterSpec(registeredObjects, objectId);
      registeredObjects := Filter(registeredObjects, KeepsId(objectId));
    }

    /** `getRegisteredObjects`: a copy of the registry, in registration order. */
    function GetRegisteredObjects(): (r: seq<InteractableObject>)
      reads this
      requires Valid()
      ensures r == registeredObjects
      ensures NoDup(r)
      ensures forall o :: o in r ==> Register(r, o) == r
    {
      registeredObjects
    }

    /** `getObjectByMesh`: the registered object the mesh belongs to, if any. */
    function GetObjectByMesh(mesh: Mesh): (r: Option<InteractableObject>)
      reads this
      ensures r.Some? ==> r.value in registeredObjects
      ensures r.Some? && HasInteractableId(mesh) ==> r.value.id == mesh.interactableId.value
      ensures r.Some? && !HasInteractableId(mesh) ==> r.value.mesh == mesh
    {
      ObjectByMesh(registeredObjects, mesh)
    }

    method OnHover(l: ListenerId)
      modifies this
      ensures hoverCallbacks == old(hoverCallbacks) + [l]
      ensures registeredObjects == old(registeredObjects) && hoveredObject == old(hoveredObject)
      ensures unhoverCallbacks == old(unhoverCallbacks) && clickCallbacks == old(clickCallbacks)
      ensures log == old(log) && examineCalls == old(examineCalls)
    {
      hoverCallbacks := hoverCallbacks + [l];
    }

    method OnUnhover(l: ListenerId)
      modifies this
      ensures unhoverCallbacks == old(unhoverCallbacks) + [l]
      ensures registeredObjects == old(registeredObjects) && hoveredObject == old(hoveredObject)
      ensures hoverCallbacks == old(hoverCallbacks) && clickCallbacks == old(clickCallbacks)
      ensures log == old(log) && examineCalls == old(examineCalls)
    {
      unhoverCallbacks := unhoverCallbacks + [l];
    }

    method OnClick(l: ListenerId)
      modifies this
      ensures clickCallbacks == old(clickCallbacks) + [l]
      ensures registeredObjects == old(registeredObjects) && hoveredObject == old(hoveredObject)
      ensures hoverCallbacks == old(hoverCallbacks) && unhoverCallbacks == old(unhoverCallbacks)
      ensures log == old(log) && examineCalls == old(examineCalls)
    {
      clickCallbacks := clickCallbacks + [l];
    }

    /** `handleClick`: runs the object's examine hook, marks it examined, and notifies each click listener once. */
    method HandleClick(o: InteractableObject)
      modifies this, o
      ensures o.examined
      ensures examineCalls == old(examineCalls) + [o]
      ensures log == old(log) + Broadcast(clickCallbacks, Clicked(o))
      ensures |log| == |old(log)| + |clickCallbacks|
      ensures registeredObjects == old(registeredObjects) && hoveredObject == old(hoveredObject)
      ensures hoverCallbacks == old(hoverCallbacks) && unhoverCallbacks == old(unhoverCallbacks)
      ensures clickCallbacks == old(clickCallbacks)
    {
      examineCalls := examineCalls + [o];
      o.examined := true;
      log := log + Broadcast(clickCallbacks, Clicked(o));
    }

    /** `dispose`: unhovers first, then empties the registry and every listener array. */
    method Dispose()
      modifies this
      ensures Valid()
      ensures registeredObjects == [] && hoveredObject == null
      ensures hoverCallbacks == [] && unhoverCallbacks == [] && clickCallbacks == []
      ensures log == old(log) + Deliver(old(hoverCallbacks), old(unhoverCallbacks), old(clickCallbacks),
                                        HoverEvents(old(hoveredObject), null))
      ensures examineCalls == old(examineCalls)
    {
      ClearHoveredObject();
      registeredObjects := [];
      hoverCallbacks := [];
      unhoverCallbacks := [];
      clickCallbacks := [];
    }
  }
}
