/**
 * The story progression machine: a flag map, the set of discovered objects
 * (kept in discovery order, without duplicates, as a JavaScript Set iterates)
 * and the current act. Two derived flags, `act1_complete` and `act2_complete`,
 * are raised automatically after every flag change and every new discovery.
 */
module Story {
  import opened Wrappers
  import opened Seqs
  import opened Notify
  import opened Interfaces

  /** The payloads the machine emits. */
  datatype StoryEvent =
    | FlagSet(flag: string, value: FlagValue)
    | Discovered(objectId: string, totalDiscovered: nat)
    | ActMoved(previousAct: int, currentAct: int)

  function KindOf(e: StoryEvent): StoryEventType {
    match e
    case FlagSet(_, _) => FlagChanged
    case Discovered(_, _) => ObjectDiscovered
    case ActMoved(_, _) => ActChanged
  }

  /** The state after an operation and the events it emitted, in order. */
  datatype Step = Step(state: StoryState, events: seq<StoryEvent>)

  /** `transitionToAct` throws `Cannot skip to act <act> from act <from>`. */
  datatype TransitionError = CannotSkip(act: int, from: int)

  datatype Transition = Moved(step: Step) | Threw(error: TransitionError)

  const Act1Complete := "act1_complete"
  const Act2Complete := "act2_complete"
  /** The items whose flags must all be exactly true for act 2 to complete. */
  const CriticalItems := ["laptop_accessed", "vr_examined", "photo_examined"]
  /** The number of discoveries that completes act 1. */
  const Act1Discoveries := 3

  const Initial := StoryState(map[], [], 1)

  /** JavaScript truthiness of a stored value: `false`, `0` and `""` are falsy. */
  predicate Truthy(v: FlagValue) {
    match v
    case Bool(b) => b
    case Num(n) => n != 0
    case Str(s) => s != ""
  }

  /** `!!this.getFlag(key)`: an absent flag is falsy. */
  predicate FlagTruthy(flags: map<string, FlagValue>, key: string) {
    key in flags && Truthy(flags[key])
  }

  /** `this.getFlag(key) === true`. */
  predicate FlagIsTrue(flags: map<string, FlagValue>, key: string) {
    key in flags && flags[key] == Bool(true)
  }

  predicate AllCriticalExamined(flags: map<string, FlagValue>) {
    forall i :: 0 <= i < |CriticalItems| ==> FlagIsTrue(flags, CriticalItems[i])
  }

  /** The act 1 rule of `checkActProgression`. */
  predicate Act1Due(s: StoryState) {
    s.currentAct == 1 && |s.discoveredObjects| >= Act1Discoveries && !FlagTruthy(s.flags, Act1Complete)
  }

  /** The act 2 rule of `checkActProgression`. */
  predicate Act2Due(s: StoryState) {
    s.currentAct == 2 && !FlagTruthy(s.flags, Act2Complete) && AllCriticalExamined(s.flags)
  }

  function Raise(s: StoryState, key: string): StoryState {
    s.(flags := s.flags[key := Bool(true)])
  }

  /** `checkActProgression`: the act 1 rule, then the act 2 rule on the result. */
  function CheckProgressionStep(s: StoryState): Step {
    var first := if Act1Due(s) then Step(Raise(s, Act1Complete), [FlagSet(Act1Complete, Bool(true))])
                 else Step(s, []);
    var t := first.state;
    if Act2Due(t) then Step(Raise(t, Act2Complete), first.events + [FlagSet(Act2Complete, Bool(true))])
    else first
  }

  /** `setFlag`: store, announce, then check progression. */
  function SetFlagStep(s: StoryState, key: string, value: FlagValue): Step {
    var stored := s.(flags := s.flags[key := value]);
    var checked := CheckProgressionStep(stored);
    Step(checked.state, [FlagSet(key, value)] + checked.events)
  }

  /** `discoverObject`: a repeat discovery is ignored; a new one is recorded, announced and checked. */
  function DiscoverStep(s: StoryState, objectId: string): Step {
    if objectId in s.discoveredObjects then Step(s, [])
    else
      var added := s.(discoveredObjects := s.discoveredObjects + [objectId]);
      var checked := CheckProgressionStep(added);
      Step(checked.state, [Discovered(objectId, |added.discoveredObjects|)] + checked.events)
  }

  /** `transitionToAct`: only the next act is accepted (the `act === 2 && currentAct === 1` case is an instance of it). */
  function TransitionStep(s: StoryState, act: int): Transition {
    if act == s.currentAct + 1 || (act == 2 && s.currentAct == 1) then
      Moved(Step(s.(currentAct := act), [ActMoved(s.currentAct, act)]))
    else
      Threw(CannotSkip(act, s.currentAct))
  }

  /** `canProgressToNextAct`. */
  predicate CanProgress(s: StoryState) {
    if s.currentAct == 1 then FlagIsTrue(s.flags, Act1Complete)
    else if s.currentAct == 2 then FlagIsTrue(s.flags, Act2Complete)
    else false
  }

  /**
   * The one key a plain JavaScript object does not store by assignment:
   * `result["__proto__"] = v` calls the prototype setter, which ignores a
   * primitive `v`, so no own property is created.
   */
  const ProtoKey := "__proto__"

  /**
   * `exportState`: the flags as copied by `getAllFlags` into a plain object,
   * which loses a `__proto__` flag, the discoveries in order and the act.
   */
  function ExportStep(s: StoryState): StoryState {
    StoryState(s.flags - {ProtoKey}, s.discoveredObjects, s.currentAct)
  }

  /** `importState`: the flags and the act as given, the discoveries as a set in first-occurrence order. */
  function ImportStep(state: StoryState): StoryState {
    StoryState(state.flags, Dedup(state.discoveredObjects), state.currentAct)
  }

  /** The machine's own invariant: each object is discovered at most once. */
  predicate WellFormed(s: StoryState) {
    NoDup(s.discoveredObjects)
  }

  // ---------------------------------------------------------------------------
  // Properties of the machine

  /** A transition succeeds exactly for the next act, and then announces the move. */
  lemma TransitionSpec(s: StoryState, act: int)
    ensures TransitionStep(s, act).Moved? <==> act == s.currentAct + 1
    ensures act == s.currentAct + 1 ==>
      TransitionStep(s, act) == Moved(Step(s.(currentAct := act), [ActMoved(s.currentAct, act)]))
    ensures act != s.currentAct + 1 ==> TransitionStep(s, act) == Threw(CannotSkip(act, s.currentAct))
  {
  }

  /** Staying, going back and skipping ahead all throw. */
  lemma TransitionRejects(s: StoryState)
    ensures TransitionStep(s, s.currentAct).Threw?
    ensures forall k :: k < s.currentAct ==> TransitionStep(s, k).Threw?
    ensures forall k :: k > s.currentAct + 1 ==> TransitionStep(s, k).Threw?
  {
  }

  /** Discovering an object already discovered changes nothing and emits nothing. */
  lemma RediscoveryIsNoOp(s: StoryState, objectId: string)
    requires objectId in s.discoveredObjects
    ensures DiscoverStep(s, objectId) == Step(s, [])
  {
  }

  /** A new discovery grows the set by one and announces the new size first. */
  lemma {:induction false} NewDiscovery(s: StoryState, objectId: string)
    requires WellFormed(s) && objectId !in s.discoveredObjects
    ensures var r := DiscoverStep(s, objectId);
      && r.state.discoveredObjects == s.discoveredObjects + [objectId]
      && WellFormed(r.state)
      && r.state.currentAct == s.currentAct
      && r.events[0] == Discovered(objectId, |s.discoveredObjects| + 1)
      && |r.state.discoveredObjects| == |s.discoveredObjects| + 1
  {
    var added := s.(discoveredObjects := s.discoveredObjects + [objectId]);
    assert Insert(s.discoveredObjects, objectId) == added.discoveredObjects;
  }

  /** Progression only raises the completion flags: it keeps the discoveries, the act and every other flag. */
  lemma CheckProgressionFrame(s: StoryState)
    ensures var r := CheckProgressionStep(s).state;
      && r.discoveredObjects == s.discoveredObjects
      && r.currentAct == s.currentAct
      && r.flags.Keys == s.flags.Keys + (if Act1Due(s) then {Act1Complete} else {})
                                      + (if Act2Due(s) then {Act2Complete} else {})
      && forall k :: k in s.flags && k != Act1Complete && k != Act2Complete ==> r.flags[k] == s.flags[k]
  {
  }

  /** The act 1 rule: enough discoveries in act 1 raise `act1_complete`, once. */
  lemma Act1Completion(s: StoryState)
    requires Act1Due(s)
    ensures var r := CheckProgressionStep(s);
      && FlagIsTrue(r.state.flags, Act1Complete)
      && r.events == [FlagSet(Act1Complete, Bool(true))]
      && CanProgress(r.state)
  {
  }

  /** The act 2 rule: in act 2, all three critical flags exactly true raise `act2_complete`. */
  lemma Act2Completion(s: StoryState)
    requires s.currentAct == 2 && !FlagTruthy(s.flags, Act2Complete)
    ensures AllCriticalExamined(s.flags) ==>
      && FlagIsTrue(CheckProgressionStep(s).state.flags, Act2Complete)
      && CheckProgressionStep(s).events == [FlagSet(Act2Complete, Bool(true))]
      && CanProgress(CheckProgressionStep(s).state)
    ensures !AllCriticalExamined(s.flags) ==> CheckProgressionStep(s) == Step(s, [])
  {
  }

  /** A truthy but not exactly true critical flag does not complete act 2. */
  lemma Act2NeedsExactlyTrue(s: StoryState)
    requires s.currentAct == 2 && !FlagTruthy(s.flags, Act2Complete)
    requires "laptop_accessed" in s.flags && s.flags["laptop_accessed"] == Num(1)
    ensures CheckProgressionStep(s) == Step(s, [])
  {
    assert !FlagIsTrue(s.flags, CriticalItems[0]);
  }

  /** Progression has nothing left to do once it has run. */
  lemma CheckProgressionIdempotent(s: StoryState)
    ensures var once := CheckProgressionStep(s).state;
      CheckProgressionStep(once) == Step(once, [])
  {
  }

  /** Progression never raises a flag outside acts 1 and 2. */
  lemma CheckProgressionOtherActs(s: StoryState)
    requires s.currentAct != 1 && s.currentAct != 2
    ensures CheckProgressionStep(s) == Step(s, [])
  {
  }

  /** `canProgressToNextAct` holds only in act 1 or 2, with that act's completion flag exactly true. */
  lemma CanProgressSpec(s: StoryState)
    ensures CanProgress(s) <==>
      (s.currentAct == 1 && FlagIsTrue(s.flags, Act1Complete))
      || (s.currentAct == 2 && FlagIsTrue(s.flags, Act2Complete))
  {
  }

  /** Setting a flag changes no discovery and no act. */
  lemma SetFlagKeepsActAndDiscoveries(s: StoryState, key: string, value: FlagValue)
    ensures SetFlagStep(s, key, value).state.currentAct == s.currentAct
    ensures SetFlagStep(s, key, value).state.discoveredObjects == s.discoveredObjects
    ensures SetFlagStep(s, key, value).events[0] == FlagSet(key, value)
    ensures key != Act1Complete && key != Act2Complete ==> SetFlagStep(s, key, value).state.flags[key] == value
  {
  }

  /** Every operation keeps each object discovered at most once. */
  lemma {:induction false} OperationsKeepWellFormed(s: StoryState, key: string, value: FlagValue, objectId: string, act: int)
    requires WellFormed(s)
    ensures WellFormed(SetFlagStep(s, key, value).state)
    ensures WellFormed(DiscoverStep(s, objectId).state)
    ensures TransitionStep(s, act).Moved? ==> WellFormed(TransitionStep(s, act).step.state)
  {
    if objectId !in s.discoveredObjects {
      NewDiscovery(s, objectId);
    }
  }

  /** Importing always yields a well-formed state, whatever duplicates the given list holds. */
  lemma ImportWellFormed(state: StoryState)
    ensures WellFormed(ImportStep(state))
    ensures forall i :: 0 <= i < |state.discoveredObjects| ==> state.discoveredObjects[i] in ImportStep(state).discoveredObjects
  {
  }

  /**
   * Importing an exported well-formed state reproduces it, except for a flag
   * named `__proto__`, which the export drops; without such a flag the round
   * trip is exact.
   */
  lemma {:induction false} ExportImportRoundTrip(s: StoryState)
    requires WellFormed(s)
    ensures ImportStep(ExportStep(s)) == s.(flags := s.flags - {ProtoKey})
    ensures ProtoKey !in s.flags ==> ImportStep(ExportStep(s)) == s
    ensures ProtoKey in s.flags ==> ProtoKey !in ImportStep(ExportStep(s)).flags && ImportStep(ExportStep(s)) != s
  {
    DedupOfNoDup(s.discoveredObjects);
    if ProtoKey !in s.flags {
      assert s.flags - {ProtoKey} == s.flags;
    }
  }

  /** Three discoveries in act 1 complete it; the third one announces the flag right after itself. */
  lemma {:induction false} ThreeDiscoveriesScenario()
    ensures
      var s1 := DiscoverStep(Initial, "phone").state;
      var s2 := DiscoverStep(s1, "laptop").state;
      var r := DiscoverStep(s2, "desk");
      && !FlagTruthy(s2.flags, Act1Complete)
      && FlagIsTrue(r.state.flags, Act1Complete)
      && r.events == [Discovered("desk", 3), FlagSet(Act1Complete, Bool(true))]
      && CanProgress(r.state)
  {
    var s1 := DiscoverStep(Initial, "phone").state;
    assert s1 == StoryState(map[], ["phone"], 1);
    var s2 := DiscoverStep(s1, "laptop").state;
    assert s2 == StoryState(map[], ["phone", "laptop"], 1);
    assert "desk" !in s2.discoveredObjects;
  }

  /** From the start, moving to act 2 and examining the three critical items completes act 2; act 3 cannot be skipped to. */
  lemma {:induction false} Act2Scenario()
    ensures TransitionStep(Initial, 3).Threw?
    ensures
      var s2 := TransitionStep(Initial, 2).step.state;
      var a := SetFlagStep(s2, "laptop_accessed", Bool(true)).state;
      var b := SetFlagStep(a, "vr_examined", Bool(true)).state;
      var c := SetFlagStep(b, "photo_examined", Bool(true)).state;
      && !FlagIsTrue(b.flags, Act2Complete)
      && FlagIsTrue(c.flags, Act2Complete)
      && CanProgress(c)
  {
    var s2 := TransitionStep(Initial, 2).step.state;
    assert s2 == StoryState(map[], [], 2);
    var a := SetFlagStep(s2, "laptop_accessed", Bool(true)).state;
    assert !FlagIsTrue(s2.flags["laptop_accessed" := Bool(true)], CriticalItems[1]);
    assert a == StoryState(map["laptop_accessed" := Bool(true)], [], 2);
    var b := SetFlagStep(a, "vr_examined", Bool(true)).state;
    assert !FlagIsTrue(a.flags["vr_examined" := Bool(true)], CriticalItems[2]);
    assert b == StoryState(map["laptop_accessed" := Bool(true), "vr_examined" := Bool(true)], [], 2);
    var c := SetFlagStep(b, "photo_examined", Bool(true)).state;
    assert AllCriticalExamined(b.flags["photo_examined" := Bool(true)]);
  }

  // ---------------------------------------------------------------------------
  // The stateful machine

  class StorySystem {
    var flags: map<string, FlagValue>
    /** The discovered-object Set, in insertion order. */
    var discoveredObjects: seq<string>
    var currentAct: int
    var eventListeners: ListenerTable<StoryEventType>
    /** Every callback invocation so far, in order. */
    var log: seq<Delivery<StoryEvent>>

    function State(): StoryState
      reads this
    {
      StoryState(flags, discoveredObjects, currentAct)
    }

    ghost predicate Valid()
      reads this
    {
      WellFormed(State())
    }

    constructor ()
      ensures Valid() && State() == Initial && currentAct == 1
      ensures eventListeners == map[FlagChanged := [], ObjectDiscovered := [], ActChanged := []]
      ensures log == []
    {
      flags := map[];
      discoveredObjects := [];
      currentAct := 1;
      eventListeners := map[FlagChanged := [], ObjectDiscovered := [], ActChanged := []];
      log := [];
    }

    method Emit(e: StoryEvent)
      modifies this
      ensures log == old(log) + Publish(eventListeners, KindOf, [e])
      ensures State() == old(State()) && eventListeners == old(eventListeners)
    {
      log := log + Notify.Emit(eventListeners, KindOf(e), e);
    }

    method SetFlag(key: string, value: FlagValue)
      requires Valid()
      modifies this
      ensures Valid()
      ensures State() == SetFlagStep(old(State()), key, value).state
      ensures log == old(log) + Publish(eventListeners, KindOf, SetFlagStep(old(State()), key, value).events)
      ensures eventListeners == old(eventListeners)
    {
      ghost var stored := old(State()).(flags := flags[key := value]);
      flags := flags[key := value];
      Emit(FlagSet(key, value));
      CheckActProgression();
      PublishConcat(eventListeners, KindOf, [FlagSet(key, value)], CheckProgressionStep(stored).events);
      OperationsKeepWellFormed(old(State()), key, value, "", 0);
    }

    /** `getFlag`: the stored value, or None (`undefined`) for an unset flag. */
    function GetFlag(key: string): (r: Option<FlagValue>)
      reads this
      ensures r.Some? <==> key in flags
      ensures r.Some? ==> r.value == flags[key]
    {
      if key in flags then Some(flags[key]) else None
    }

    /** `getAllFlags`: a plain-object copy of the flags, which cannot hold a `__proto__` flag. */
    function GetAllFlags(): (r: map<string, FlagValue>)
      reads this
      ensures r.Keys == flags.Keys - {ProtoKey}
      ensures forall k :: k in r ==> GetFlag(k) == Some(r[k])
    {
      flags - {ProtoKey}
    }

    method DiscoverObject(objectId: string)
      requires Valid()
      modifies this
      ensures Valid()
      ensures State() == DiscoverStep(old(State()), objectId).state
      ensures log == old(log) + Publish(eventListeners, KindOf, DiscoverStep(old(State()), objectId).events)
      ensures eventListeners == old(eventListeners)
    {
      if objectId in discoveredObjects {
        return;
      }
      discoveredObjects := discoveredObjects + [objectId];
      Emit(Discovered(objectId, |discoveredObjects|));
      CheckActProgression();
      OperationsKeepWellFormed(old(State()), "", Bool(false), objectId, 0);
    }

    /** `isDiscovered`: Set membership; a discovered object is not announced again. */
    function IsDiscovered(objectId: string): (r: bool)
      reads this
      ensures r <==> objectId in State().discoveredObjects
      ensures r ==> DiscoverStep(State(), objectId) == Step(State(), [])
    {
      objectId in discoveredObjects
    }

    /** `getDiscoveredCount`: the number of distinct objects discovered. */
    function GetDiscoveredCount(): (n: nat)
      reads this
      requires Valid()
      ensures n == |discoveredObjects| == |set o | o in discoveredObjects|
    {
      NoDupCardinality(discoveredObjects);
      |discoveredObjects|
    }

    /** `getDiscoveredObjects`: a copy of the set, in discovery order. */
    function GetDiscoveredObjects(): (r: seq<string>)
      reads this
      requires Valid()
      ensures NoDup(r)
      ensures forall o :: o in r <==> IsDiscovered(o)
    {
      discoveredObjects
    }

    /** `getCurrentAct`: the act, which moves only to the next one. */
    function GetCurrentAct(): (r: int)
      reads this
      ensures r == State().currentAct
      ensures forall act :: TransitionStep(State(), act).Moved? ==> TransitionStep(State(), act).step.state.currentAct == r + 1
    {
      currentAct
    }

    /** `transitionToAct`: a throw is returned as an error and leaves everything unchanged. */
    method TransitionToAct(act: int) returns (error: Option<TransitionError>)
      requires Valid()
      modifies this
      ensures Valid()
      ensures TransitionStep(old(State()), act).Threw? ==>
        error == Some(TransitionStep(old(State()), act).error) && State() == old(State()) && log == old(log)
      ensures TransitionStep(old(State()), act).Moved? ==>
        && error == None
        && State() == TransitionStep(old(State()), act).step.state
        && log == old(log) + Publish(eventListeners, KindOf, TransitionStep(old(State()), act).step.events)
      ensures eventListeners == old(eventListeners)
    {
      if act == currentAct + 1 || (act == 2 && currentAct == 1) {
        var previousAct := currentAct;
        currentAct := act;
        Emit(ActMoved(previousAct, act));
        error := None;
      } else {
        error := Some(CannotSkip(act, currentAct));
      }
    }

    /** `canProgressToNextAct`: only acts 1 and 2 can be completed, each by its own flag being exactly true. */
    function CanProgressToNextAct(): (r: bool)
      reads this
      ensures r <==> (currentAct == 1 && FlagIsTrue(flags, Act1Complete)) || (currentAct == 2 && FlagIsTrue(flags, Act2Complete))
      ensures r ==> TransitionStep(State(), currentAct + 1).Moved?
    {
      CanProgress(State())
    }

    method CheckActProgression()
      modifies this
      ensures State() == CheckProgressionStep(old(State())).state
      ensures log == old(log) + Publish(eventListeners, KindOf, CheckProgressionStep(old(State())).events)
      ensures eventListeners == old(eventListeners)
    {
      if currentAct == 1 && |discoveredObjects| >= Act1Discoveries && !FlagTruthy(flags, Act1Complete) {
        flags := flags[Act1Complete := Bool(true)];
        Emit(FlagSet(Act1Complete, Bool(true)));
      }
      if currentAct == 2 && !FlagTruthy(flags, Act2Complete) {
        var allCriticalExamined := true;
        var i := 0;
        while i < |CriticalItems|
          invariant 0 <= i <= |CriticalItems|
          invariant allCriticalExamined <==> forall j :: 0 <= j < i ==> FlagIsTrue(flags, CriticalItems[j])
        {
          allCriticalExamined := allCriticalExamined && FlagIsTrue(flags, CriticalItems[i]);
          i := i + 1;
        }
        if allCriticalExamined {
          flags := flags[Act2Complete := Bool(true)];
          Emit(FlagSet(Act2Complete, Bool(true)));
        }
      }
      PublishConcat(eventListeners, KindOf, [FlagSet(Act1Complete, Bool(true))], [FlagSet(Act2Complete, Bool(true))]);
    }

    /** `on`. */
    method On(kind: StoryEventType, l: ListenerId)
      modifies this
      ensures eventListeners == Subscribe(old(eventListeners), kind, l)
      ensures State() == old(State()) && log == old(log)
    {
      eventListeners := Subscribe(eventListeners, kind, l);
    }

    /** `off`. */
    method Off(kind: StoryEventType, l: ListenerId)
      modifies this
      ensures eventListeners == Unsubscribe(old(eventListeners), kind, l)
      ensures State() == old(State()) && log == old(log)
    {
      eventListeners := Unsubscribe(eventListeners, kind, l);
    }

    /** `exportState`: the flags, the discoveries in order and the act. */
    function ExportState(): (r: StoryState)
      reads this
      requires Valid()
      ensures r.discoveredObjects == discoveredObjects && r.currentAct == currentAct && r.flags == GetAllFlags()
      ensures ImportStep(r) == State().(flags := flags - {ProtoKey})
      ensures ProtoKey !in flags ==> ImportStep(r) == State()
    {
      ExportImportRoundTrip(State());
      StoryState(GetAllFlags(), discoveredObjects, currentAct)
    }

    /** `importState`: clears both collections, then refills them from `state` in loops. */
    method ImportState(state: StoryState)
      modifies this
      ensures Valid()
      ensures State() == ImportStep(state)
      ensures log == old(log) && eventListeners == old(eventListeners)
    {
      var loaded := CopyFlags(state.flags);
      var found := AddEachObject(state.discoveredObjects);
      ImportWellFormed(state);
      flags := loaded;
      discoveredObjects := found;
      currentAct := state.currentAct;
    }
  }

  /** The `Object.entries(state.flags).forEach(... flags.set ...)` loop into a cleared map. */
  method CopyFlags(source: map<string, FlagValue>) returns (loaded: map<string, FlagValue>)
    ensures loaded == source
  {
    loaded := map[];
    var pending := source.Keys;
    while pending != {}
      invariant pending <= source.Keys
      invariant loaded.Keys == source.Keys - pending
      invariant forall k :: k in loaded ==> loaded[k] == source[k]
      decreases |pending|
    {
      var k :| k in pending;
      loaded := loaded[k := source[k]];
      pending := pending - {k};
    }
  }

  /** The `state.discoveredObjects.forEach(... discoveredObjects.add ...)` loop into a cleared Set. */
  method AddEachObject(objects: seq<string>) returns (found: seq<string>)
    ensures found == Dedup(objects)
    ensures NoDup(found)
  {
    found := [];
    var i := 0;
    assert objects[..0] == [];
    while i < |objects|
      invariant 0 <= i <= |objects|
      invariant found == Dedup(objects[..i])
    {
      assert objects[..i + 1][..i] == objects[..i];
      found := Insert(found, objects[i]);
      i := i + 1;
    }
    assert objects[..i] == objects;
  }

  /** A duplicate-free sequence has as many elements as its set. */
  lemma {:induction false} NoDupCardinality(s: seq<string>)
    requires NoDup(s)
    ensures |s| == |set o | o in s|
  {
    if s != [] {
      var init := s[..|s| - 1];
      assert NoDup(init) by {
        forall i, j | 0 <= i < j < |init| ensures init[i] != init[j] {
          assert init[i] == s[i] && init[j] == s[j];
        }
      }
      NoDupCardinality(init);
      assert s == init + [s[|s| - 1]];
      assert s[|s| - 1] !in init by {
        forall i | 0 <= i < |init| ensures init[i] != s[|s| - 1] {
          assert init[i] == s[i];
        }
      }
      assert (set o | o in s) == (set o | o in init) + {s[|s| - 1]};
    }
  }
}
