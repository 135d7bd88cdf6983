/** Lifetime of block devices: the list of registered devices and their
    reference counts (bio.c).

    Device structures live in a heap of handles.  A handle leaves the heap when
    its structure is freed, so no operation of a well-formed run may touch a
    handle outside it. */
module BlockRegistry {
  import opened Wrappers

  type Handle = nat

  datatype Dev = Dev(name: string, ref: int, hasClose: bool)

  datatype Effect = CloseHook(h: Handle) | Freed(h: Handle)

  datatype Event =
    | Initialize(h: Handle, name: string, hasClose: bool)
    | Register(h: Handle)
    | Open(name: string)
    | Close(h: Handle)
    | Unregister(h: Handle)

  datatype State = State(heap: map<Handle, Dev>, listed: seq<Handle>, log: seq<Effect>)

  const INITIAL := State(map[], [], [])

  /** The first listed device with this name. */
  function FindFirst(heap: map<Handle, Dev>, listed: seq<Handle>, name: string): (r: Option<Handle>)
    requires forall h :: h in listed ==> h in heap
    ensures r.None? <==> forall h :: h in listed ==> heap[h].name != name
    ensures r.Some? ==> r.value in listed && heap[r.value].name == name
  {
    if listed == [] then None
    else if heap[listed[0]].name == name then Some(listed[0])
    else FindFirst(heap, listed[1..], name)
  }

  function IncRef(s: State, h: Handle): State
    requires h in s.heap
  {
    s.(heap := s.heap[h := s.heap[h].(ref := s.heap[h].ref + 1)])
  }

  function DecRef(s: State, h: Handle): State
    requires h in s.heap
  {
    if s.heap[h].ref == 1 then
      s.(heap := s.heap - {h}, log := s.log + (if s.heap[h].hasClose then [CloseHook(h)] else []) + [Freed(h)])
    else
      s.(heap := s.heap[h := s.heap[h].(ref := s.heap[h].ref - 1)])
  }

  function Remove(listed: seq<Handle>, h: Handle): (r: seq<Handle>)
    ensures forall g :: g in r ==> g in listed
  {
    if listed == [] then [] else if listed[0] == h then listed[1..] else [listed[0]] + Remove(listed[1..], h)
  }

  /** Nothing dangles: what is listed is live. */
  ghost predicate Safe(s: State) {
    forall h :: h in s.listed ==> h in s.heap
  }

  /** The device an event adds a reference to or takes one from. */
  ghost predicate Touches(s: State, e: Event) {
    match e
    case Initialize(h, _, _) => h !in s.heap
    case Register(h) => h in s.heap && h !in s.listed
    case Open(_) => true
    case Close(h) => h in s.heap
    case Unregister(h) => h in s.listed
  }

  function Step(s: State, e: Event): (r: (State, Option<Handle>))
    requires Safe(s) && Touches(s, e)
  {
    match e
    case Initialize(h, name, hasClose) => (s.(heap := s.heap[h := Dev(name, 0, hasClose)]), None)
    case Register(h) => (IncRef(s, h).(listed := [h] + s.listed), None)
    case Open(name) =>
      var found := FindFirst(s.heap, s.listed, name);
      (if found.Some? then IncRef(s, found.value) else s, found)
    case Close(h) => (DecRef(s, h), None)
    case Unregister(h) => (DecRef(s.(listed := Remove(s.listed, h)), h), None)
  }

  /** The registry object: the device list and the heap its devices live in. */
  class Registry {
    var heap: map<Handle, Dev>
    var listed: seq<Handle>
    var log: seq<Effect>

    function Value(): State
      reads this
    {
      State(heap, listed, log)
    }

    constructor ()
      ensures Value() == INITIAL
    {
      heap, listed, log := map[], [], [];
    }

    method AddRef(h: Handle)
      requires h in heap
      modifies this`heap
      ensures Value() == IncRef(old(Value()), h)
    {
      heap := heap[h := heap[h].(ref := heap[h].ref + 1)];
    }

    method DropRef(h: Handle)
      requires h in heap
      modifies this`heap, this`log
      ensures Value() == DecRef(old(Value()), h)
    {
      var oldval := heap[h].ref;
      heap := heap[h := heap[h].(ref := oldval - 1)];
      if oldval == 1 {
        if heap[h].hasClose {
          log := log + [CloseHook(h)];
        }
        heap := heap - {h};
        log := log + [Freed(h)];
      }
      assert old(heap) - {h} == old(heap)[h := old(heap)[h].(ref := oldval - 1)] - {h};
    }

    method InitializeDevice(h: Handle, name: string, hasClose: bool)
      requires Safe(Value()) && h !in heap
      modifies this`heap
      ensures Value() == Step(old(Value()), Initialize(h, name, hasClose)).0
    {
      heap := heap[h := Dev(name, 0, hasClose)];
    }

    method RegisterDevice(h: Handle)
      requires Safe(Value()) && Touches(Value(), Register(h))
      modifies this
      ensures Value() == Step(old(Value()), Register(h)).0
    {
      AddRef(h);
      listed := [h] + listed;
    }

    method OpenDevice(name: string) returns (r: Option<Handle>)
      requires Safe(Value())
      modifies this`heap
      ensures (Value(), r) == Step(old(Value()), Open(name))
    {
      r := None;
      for i := 0 to |listed|
        invariant r.None? && heap == old(heap)
        invariant FindFirst(heap, listed, name) == FindFirst(heap, listed[i..], name)
      {
        if heap[listed[i]].name == name {
          r := Some(listed[i]);
          AddRef(listed[i]);
          return;
        }
      }
    }

    method CloseDevice(h: Handle)
      requires Safe(Value()) && h in heap
      modifies this`heap, this`log
      ensures Value() == Step(old(Value()), Close(h)).0
    {
      DropRef(h);
    }

    method UnregisterDevice(h: Handle)
      requires Safe(Value()) && h in listed
      modifies this
      ensures Value() == Step(old(Value()), Unregister(h)).0
    {
      listed := Remove(listed, h);
      DropRef(h);
    }
  }

  // ----- Whole runs -----

  /** The state after a run.  An event that no well-formed run contains does nothing. */
  ghost function Run(es: seq<Event>): State {
    if es == [] then INITIAL else After(Run(es[..|es| - 1]), es[|es| - 1])
  }

  ghost function After(s: State, e: Event): State {
    if Safe(s) && Touches(s, e) then Step(s, e).0 else s
  }

  /** The device an event opens, when it is an open that finds one. */
  ghost function Opened(s: State, e: Event): Option<Handle> {
    if Safe(s) && e.Open? then Step(s, e).1 else None
  }

  /** Opens of `h` minus closes of `h` so far. */
  ghost function Outstanding(es: seq<Event>, h: Handle): int {
    if es == [] then 0 else
      var before, e := es[..|es| - 1], es[|es| - 1];
      Outstanding(before, h) + (if Opened(Run(before), e) == Some(h) then 1 else 0) - (if e == Close(h) then 1 else 0)
  }

  /** How often the structure `h` was set up, and how often it was freed. */
  ghost function SetUps(es: seq<Event>, h: Handle): nat {
    if es == [] then 0 else
      var e := es[|es| - 1];
      SetUps(es[..|es| - 1], h) + if e.Initialize? && e.h == h then 1 else 0
  }

  ghost function Frees(log: seq<Effect>, h: Handle): nat {
    if log == [] then 0 else Frees(log[..|log| - 1], h) + if log[|log| - 1] == Freed(h) then 1 else 0
  }

  /** When `h` was last registered, or -1. */
  ghost function RegisteredAt(es: seq<Event>, h: Handle): int
    ensures RegisteredAt(es, h) < |es|
  {
    if es == [] then -1
    else if es[|es| - 1] == Register(h) then |es| - 1
    else RegisteredAt(es[..|es| - 1], h)
  }

  /** What the callers owe: only unused storage is set up, only a live unlisted
      device is registered, only a listed one is unregistered, and every close
      returns a reference that an open handed out. */
  ghost predicate Allowed(es: seq<Event>, e: Event) {
    match e
    case Initialize(h, _, _) => h !in Run(es).heap
    case Register(h) => h in Run(es).heap && h !in Run(es).listed
    case Open(_) => true
    case Close(h) => Outstanding(es, h) > 0
    case Unregister(h) => h in Run(es).listed
  }

  ghost predicate WellFormed(es: seq<Event>) {
    es == [] || (WellFormed(es[..|es| - 1]) && Allowed(es[..|es| - 1], es[|es| - 1]))
  }

  ghost function Listed(s: State, h: Handle): int {
    if h in s.listed then 1 else 0
  }

  ghost predicate Counted(es: seq<Event>, h: Handle) {
    var s, opens := Run(es), Outstanding(es, h);
    && opens >= 0
    && (h in s.heap ==> s.heap[h].ref == opens + Listed(s, h))
    && (h !in s.heap ==> opens == 0 && h !in s.listed)
    && SetUps(es, h) == Frees(s.log, h) + if h in s.heap then 1 else 0
  }

  ghost predicate NewestFirst(es: seq<Event>) {
    var listed := Run(es).listed;
    forall i, j :: 0 <= i < j < |listed| ==> RegisteredAt(es, listed[i]) > RegisteredAt(es, listed[j])
  }

  lemma {:induction false} RemoveAt(listed: seq<Handle>, h: Handle) returns (k: nat)
    requires h in listed
    ensures k < |listed| && listed[k] == h && h !in listed[..k]
    ensures Remove(listed, h) == listed[..k] + listed[k + 1..]
  {
    if listed[0] == h {
      k := 0;
    } else {
      var j := RemoveAt(listed[1..], h);
      k := j + 1;
    }
  }

  lemma FreesAppend(log: seq<Effect>, e: Effect, h: Handle)
    ensures Frees(log + [e], h) == Frees(log, h) + if e == Freed(h) then 1 else 0
  {
    assert (log + [e])[..|log|] == log;
  }

  /** Conservation: in every well-formed run each live device is referenced once
      per outstanding open and once more if listed; a device that is not live
      is neither open nor listed and was freed as often as it was set up. */
  lemma {:induction false} ReferencesConserved(es: seq<Event>)
    requires WellFormed(es)
    ensures Safe(Run(es)) && NewestFirst(es)
    ensures forall h :: Counted(es, h)
  {
    if es != [] {
      var before, e := es[..|es| - 1], es[|es| - 1];
      ReferencesConserved(before);
      StepKeepsOrder(before, e);
      assert before + [e] == es;
      forall h ensures Counted(es, h) {
        StepKeepsCount(before, e, h);
      }
    }
  }

  lemma StepIsTaken(es: seq<Event>, e: Event)
    requires Safe(Run(es)) && Allowed(es, e)
    requires forall h :: Counted(es, h)
    ensures Touches(Run(es), e)
    ensures Run(es + [e]) == Step(Run(es), e).0
  {
    assert (es + [e])[..|es|] == es;
    if e.Close? {
      assert Counted(es, e.h);
    }
  }

  lemma OneMore(es: seq<Event>, e: Event, h: Handle)
    ensures Outstanding(es + [e], h) ==
      Outstanding(es, h) + (if Opened(Run(es), e) == Some(h) then 1 else 0) - (if e == Close(h) then 1 else 0)
    ensures SetUps(es + [e], h) == SetUps(es, h) + if e.Initialize? && e.h == h then 1 else 0
    ensures RegisteredAt(es + [e], h) == if e == Register(h) then |es| else RegisteredAt(es, h)
  {
    assert (es + [e])[..|es|] == es;
  }

  /** Registration order makes list entries distinct, so unlisting removes the
      only entry and keeps the order of the others. */
  lemma Unlisted(es: seq<Event>, h: Handle)
    requires NewestFirst(es) && h in Run(es).listed
    ensures var listed := Run(es).listed;
            var rest := Remove(listed, h);
            h !in rest
            && (forall g :: g in listed && g != h ==> g in rest)
            && (forall i, j :: 0 <= i < j < |rest| ==> RegisteredAt(es, rest[i]) > RegisteredAt(es, rest[j]))
  {
    var k := RemoveAt(Run(es).listed, h);
  }

  /** A device loses its last reference only when no list entry is left. */
  lemma LastReference(es: seq<Event>, e: Event)
    requires Safe(Run(es)) && Allowed(es, e) && NewestFirst(es)
    requires forall h :: Counted(es, h)
    requires e.Close? || e.Unregister?
    ensures e.h in Run(es).heap
    ensures Run(es).heap[e.h].ref == 1 ==> e.h !in Step(Run(es), e).0.listed
  {
    assert Counted(es, e.h);
    if e.Unregister? {
      Unlisted(es, e.h);
    }
  }

  lemma StepKeepsSafe(es: seq<Event>, e: Event)
    requires Safe(Run(es)) && Allowed(es, e) && NewestFirst(es)
    requires forall h :: Counted(es, h)
    ensures Touches(Run(es), e) && Safe(Step(Run(es), e).0)
  {
    StepIsTaken(es, e);
    if e.Close? || e.Unregister? {
      LastReference(es, e);
    }
  }

  lemma StepKeepsOrder(es: seq<Event>, e: Event)
    requires Safe(Run(es)) && Allowed(es, e) && NewestFirst(es)
    requires forall h :: Counted(es, h)
    ensures Safe(Run(es + [e])) && NewestFirst(es + [e])
  {
    StepIsTaken(es, e);
    StepKeepsSafe(es, e);
    if e.Unregister? {
      Unlisted(es, e.h);
    }
    var listed := Run(es + [e]).listed;
    forall i, j | 0 <= i < j < |listed|
      ensures RegisteredAt(es + [e], listed[i]) > RegisteredAt(es + [e], listed[j])
    {
      OneMore(es, e, listed[i]);
      OneMore(es, e, listed[j]);
    }
  }

  lemma StepFrees(s: State, e: Event, h: Handle)
    requires Safe(s) && Touches(s, e)
    ensures Frees(Step(s, e).0.log, h) ==
      Frees(s.log, h) + if (e.Close? || e.Unregister?) && e.h == h && s.heap[h].ref == 1 then 1 else 0
  {
    if (e.Close? || e.Unregister?) && s.heap[e.h].ref == 1 {
      if s.heap[e.h].hasClose {
        FreesAppend(s.log, CloseHook(e.h), h);
        FreesAppend(s.log + [CloseHook(e.h)], Freed(e.h), h);
      } else {
        FreesAppend(s.log, Freed(e.h), h);
        assert s.log + [] + [Freed(e.h)] == s.log + [Freed(e.h)];
      }
    }
  }

  lemma StepKeepsCount(es: seq<Event>, e: Event, h: Handle)
    requires Safe(Run(es)) && Allowed(es, e) && NewestFirst(es)
    requires forall h :: Counted(es, h)
    ensures Counted(es + [e], h)
  {
    StepIsTaken(es, e);
    OneMore(es, e, h);
    StepFrees(Run(es), e, h);
    assert Counted(es, h);
    if e.Unregister? {
      Unlisted(es, e.h);
    }
  }

  /** What a close or an unregister does to a device with its last reference, and
      to one with more. */
  lemma LastStep(s: State, e: Event)
    requires Safe(s) && Touches(s, e) && (e.Close? || e.Unregister?)
    ensures var s', last := Step(s, e).0, s.heap[e.h].ref == 1;
            (e.h !in s'.heap <==> last)
            && s'.log == s.log
                 + (if last && s.heap[e.h].hasClose then [CloseHook(e.h)] else [])
                 + (if last then [Freed(e.h)] else [])
  {
  }

  /** The last reference goes exactly when a close or an unregister leaves the
      device neither open nor listed; then, and only then, its close hook (if it
      has one) runs and the structure is freed, in this order. */
  lemma FreedWhenUnused(es: seq<Event>, e: Event)
    requires WellFormed(es) && Allowed(es, e) && (e.Close? || e.Unregister?)
    ensures var s, s' := Run(es), Run(es + [e]);
            var unused := Outstanding(es + [e], e.h) == 0 && e.h !in s'.listed;
            e.h in s.heap && (e.h !in s'.heap <==> unused)
            && s'.log == s.log
                 + (if unused && s.heap[e.h].hasClose then [CloseHook(e.h)] else [])
                 + (if unused then [Freed(e.h)] else [])
  {
    ReferencesConserved(es);
    StepIsTaken(es, e);
    LastStep(Run(es), e);
    LastIsUnused(es, e);
  }

  lemma LastIsUnused(es: seq<Event>, e: Event)
    requires WellFormed(es) && Allowed(es, e) && (e.Close? || e.Unregister?)
    ensures e.h in Run(es).heap
    ensures Run(es).heap[e.h].ref == 1 <==> Outstanding(es + [e], e.h) == 0 && e.h !in Run(es + [e]).listed
  {
    ReferencesConserved(es);
    StepIsTaken(es, e);
    OneMore(es, e, e.h);
    assert Counted(es, e.h);
    if e.Unregister? {
      Unlisted(es, e.h);
    }
  }

  /** When `h` was last set up, or -1. */
  ghost function SetUpAt(es: seq<Event>, h: Handle): (k: int)
    ensures -1 <= k < |es|
    ensures k >= 0 ==> es[k].Initialize? && es[k].h == h
    ensures forall j :: k < j < |es| ==> !(es[j].Initialize? && es[j].h == h)
  {
    if es == [] then -1
    else if es[|es| - 1].Initialize? && es[|es| - 1].h == h then |es| - 1
    else SetUpAt(es[..|es| - 1], h)
  }

  /** Over any run a live device has the name and the close hook of its last set-up. */
  lemma {:induction false} IdentityKept(es: seq<Event>, h: Handle)
    requires WellFormed(es) && h in Run(es).heap
    ensures var k := SetUpAt(es, h);
            k >= 0 && Run(es).heap[h].name == es[k].name && Run(es).heap[h].hasClose == es[k].hasClose
  {
    var before, e := es[..|es| - 1], es[|es| - 1];
    if h in Run(before).heap {
      IdentityKept(before, h);
    }
  }

  /** Only a close or an unregister runs a hook or frees anything. */
  lemma QuietEvents(s: State, e: Event)
    requires Safe(s) && Touches(s, e) && !e.Close? && !e.Unregister?
    ensures Step(s, e).0.log == s.log
  {
  }

  /** Opening by name finds a listed device of that name whenever there is one,
      and of several the one registered last. */
  lemma OpensNewest(es: seq<Event>, name: string)
    requires WellFormed(es)
    ensures var s := Run(es);
            Safe(s) &&
            match Step(s, Open(name)).1
            case None => forall h :: h in s.listed ==> s.heap[h].name != name
            case Some(h) =>
              && h in s.listed && s.heap[h].name == name
              && forall g :: g in s.listed && s.heap[g].name == name && g != h ==>
                   RegisteredAt(es, g) < RegisteredAt(es, h)
  {
    ReferencesConserved(es);
    var s := Run(es);
    var found := FindFirst(s.heap, s.listed, name);
    if found.Some? {
      var k := FirstMatch(s.heap, s.listed, name);
    }
  }

  lemma {:induction false} FirstMatch(heap: map<Handle, Dev>, listed: seq<Handle>, name: string) returns (k: nat)
    requires forall h :: h in listed ==> h in heap
    requires FindFirst(heap, listed, name).Some?
    ensures k < |listed| && FindFirst(heap, listed, name) == Some(listed[k])
    ensures forall i :: 0 <= i < k ==> heap[listed[i]].name != name
  {
    if heap[listed[0]].name == name {
      k := 0;
    } else {
      var j := FirstMatch(heap, listed[1..], name);
      k := j + 1;
    }
  }
}
