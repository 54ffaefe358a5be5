/** The mutable side of a loader, as a value threaded through its
    transitions: the cached resolution state, the OPEN / CLOSING / CLOSED
    status and the close tasks. `reset` swaps the in-memory elements and drops
    the cache; `close` runs once and only lowers the status. */
module Lifecycle {
  import opened Wrappers
  import opened Names
  import opened Elements
  import opened Loaders
  import opened ResolutionState
  import opened Resolution
  import opened Aggregation

  const STATUS_OPEN: int := 1
  const STATUS_CLOSING: int := 0
  const STATUS_CLOSED: int := -1

  /** The status byte holds one of the three values above. */
  type Status = s: int | STATUS_CLOSED <= s <= STATUS_OPEN

  /** A close task, by identity. */
  type Task = nat

  /** What a first `close` does, in order. */
  datatype Effect = RanTask(task: Task) | ClosedElement(element: Element)

  /** A loader at run time. */
  datatype Instance = Instance(loader: Loader, cache: Option<State>, status: Status, closeTasks: seq<Task>)

  /** The cache, when present, is what building the state now would give. */
  predicate Valid(i: Instance) {
    i.cache.Some? ==> BuildState(i.loader) == Success(i.cache.value)
  }

  /** A freshly constructed loader: open, no cached state, no close task. */
  function Create(l: Loader): (i: Instance)
    ensures Valid(i) && i.status == STATUS_OPEN && i.loader == l
    ensures i.cache.None? && i.closeTasks == []
  {
    Instance(l, None, STATUS_OPEN, [])
  }

  /** `getState`: the cached state if there is one; otherwise the state is
      built and, when the build succeeds, cached. */
  function GetState(i: Instance): (r: (Result<State, Fault>, Instance))
    requires Valid(i)
    ensures r.0 == BuildState(i.loader)
    ensures Valid(r.1)
    ensures r.0.Success? ==> r.1.cache == Some(r.0.value)
    ensures r.1.loader == i.loader && r.1.status == i.status && r.1.closeTasks == i.closeTasks
  {
    if i.cache.Some? then (Success(i.cache.value), i)
    else
      match BuildState(i.loader)
      case Failure(f) => (Failure(f), i)
      case Success(st) => (Success(st), i.(cache := Some(st)))
  }

  /** Asking for the state twice gives the same state and changes nothing the second time. */
  lemma GetStateIdempotent(i: Instance)
    requires Valid(i)
    ensures GetState(GetState(i).1).0 == GetState(i).0
    ensures GetState(i).0.Success? ==> GetState(GetState(i).1).1 == GetState(i).1
  {
  }

  /** The element list with every occurrence of `previous` replaced by `replacement`. */
  function ReplaceElement(els: seq<Element>, previous: Element, replacement: Element): (r: seq<Element>)
    ensures |r| == |els|
    ensures forall k :: 0 <= k < |els| ==> r[k] == if els[k] == previous then replacement else els[k]
  {
    if els == [] then [] else [if els[0] == previous then replacement else els[0]] + ReplaceElement(els[1..], previous, replacement)
  }

  /** `reset(generatedResources, transformedClasses)`. The resettable element
      keeps its identity and takes the generated resources; a fresh in-memory
      element with identity `transformedId` takes the transformed classes;
      the cached state is dropped. It fails on a loader without a resettable
      element, and it does not look at the status. */
  function Reset(i: Instance, generated: map<string, Data>, transformedClasses: map<string, Data>, transformedId: nat)
    : (r: Result<Instance, Fault>)
    ensures r.Failure? <==> i.loader.resettable.None?
    ensures r.Failure? ==> r.error == NotResettable
    ensures r.Success? ==> Valid(r.value) && r.value.cache.None?
    ensures r.Success? ==> r.value.status == i.status && r.value.closeTasks == i.closeTasks
    ensures r.Success? ==>
              && r.value.loader.resettable.Some?
              && r.value.loader.resettable.value.id == i.loader.resettable.value.id
              && r.value.loader.resettable.value.provided == generated.Keys
              && (forall n :: Fetch(r.value.loader.resettable.value, n).Some? <==> n in generated)
              && (forall n :: Transforms(r.value.loader.transformed, n) <==> n in transformedClasses)
    // the resettable element stays where it was, every other element is untouched
    ensures r.Success? ==> |r.value.loader.elements| == |i.loader.elements|
    ensures r.Success? ==> forall k :: 0 <= k < |i.loader.elements| ==>
              r.value.loader.elements[k] ==
                if i.loader.elements[k] == i.loader.resettable.value then r.value.loader.resettable.value
                else i.loader.elements[k]
    ensures r.Success? ==> r.value.loader.resettable == Some(MemoryElement(i.loader.resettable.value.id, generated))
    ensures r.Success? ==> r.value.loader.transformed == MemoryElement(transformedId, transformedClasses)
    // the element is one object wherever it is listed, so it changes in every list
    ensures r.Success? ==>
              r.value.loader.bannedElements ==
                ReplaceElement(i.loader.bannedElements, i.loader.resettable.value, r.value.loader.resettable.value)
    ensures r.Success? ==>
              r.value.loader.parentFirstElements ==
                ReplaceElement(i.loader.parentFirstElements, i.loader.resettable.value, r.value.loader.resettable.value)
    ensures r.Success? ==>
              r.value.loader.lesserPriorityElements ==
                ReplaceElement(i.loader.lesserPriorityElements, i.loader.resettable.value, r.value.loader.resettable.value)
    ensures r.Success? ==>
              r.value.loader == i.loader.(elements := r.value.loader.elements,
                                          bannedElements := r.value.loader.bannedElements,
                                          parentFirstElements := r.value.loader.parentFirstElements,
                                          lesserPriorityElements := r.value.loader.lesserPriorityElements,
                                          transformed := r.value.loader.transformed,
                                          resettable := r.value.loader.resettable)
  {
    match i.loader.resettable
    case None => Failure(NotResettable)
    case Some(current) =>
      var renewed := MemoryElement(current.id, generated);
      var l := i.loader.(elements := ReplaceElement(i.loader.elements, current, renewed),
                         bannedElements := ReplaceElement(i.loader.bannedElements, current, renewed),
                         parentFirstElements := ReplaceElement(i.loader.parentFirstElements, current, renewed),
                         lesserPriorityElements := ReplaceElement(i.loader.lesserPriorityElements, current, renewed),
                         transformed := MemoryElement(transformedId, transformedClasses),
                         resettable := Some(renewed));
      Success(i.(loader := l, cache := None))
  }

  /** `reset` behaves the same whatever the status: it is not refused after `close`. */
  lemma ResetIgnoresStatus(i: Instance, s: Status, generated: map<string, Data>, transformedClasses: map<string, Data>, transformedId: nat)
    ensures Reset(i.(status := s), generated, transformedClasses, transformedId).Success? ==
            Reset(i, generated, transformedClasses, transformedId).Success?
    ensures Reset(i, generated, transformedClasses, transformedId).Success? ==>
              Reset(i.(status := s), generated, transformedClasses, transformedId).value ==
              Reset(i, generated, transformedClasses, transformedId).value.(status := s)
  {
  }

  /** `isClosed`. */
  function IsClosed(i: Instance): (r: bool)
    ensures r <==> i.status != STATUS_OPEN
  {
    i.status < STATUS_OPEN
  }

  /** `addCloseTask`: tasks are kept in registration order (also after close). */
  function AddCloseTask(i: Instance, t: Task): (r: Instance)
    ensures r.closeTasks == i.closeTasks + [t]
    ensures r.loader == i.loader && r.cache == i.cache && r.status == i.status
  {
    i.(closeTasks := i.closeTasks + [t])
  }

  function RunTasks(tasks: seq<Task>): (r: seq<Effect>)
    ensures |r| == |tasks|
    ensures forall k :: 0 <= k < |tasks| ==> r[k] == RanTask(tasks[k])
  {
    if tasks == [] then [] else [RanTask(tasks[0])] + RunTasks(tasks[1..])
  }

  function CloseElements(els: seq<Element>): (r: seq<Effect>)
    ensures |r| == |els|
    ensures forall k :: 0 <= k < |els| ==> r[k] == ClosedElement(els[k])
  {
    if els == [] then [] else [ClosedElement(els[0])] + CloseElements(els[1..])
  }

  /** The first half of `close`: the check-and-set under the loader's lock.
      Only an open loader proceeds, and it becomes CLOSING. */
  function BeginClose(i: Instance): (r: (bool, Instance))
    ensures r.0 <==> i.status == STATUS_OPEN
    ensures r.0 ==> r.1 == i.(status := STATUS_CLOSING)
    ensures !r.0 ==> r.1 == i
  {
    if i.status < STATUS_OPEN then (false, i) else (true, i.(status := STATUS_CLOSING))
  }

  /** `close`: on an open loader, run every close task in registration order,
      then soft-close the elements and the banned elements, and end CLOSED;
      on a loader that is closing or closed, do nothing. The loader stays
      queryable: configuration and cached state are untouched. */
  function Close(i: Instance): (r: (Instance, seq<Effect>))
    ensures r.0.status <= i.status
    ensures IsClosed(r.0)
    ensures i.status != STATUS_OPEN ==> r == (i, [])
    ensures i.status == STATUS_OPEN ==> r.0.status == STATUS_CLOSED
    ensures i.status == STATUS_OPEN ==>
              && |r.1| == |i.closeTasks| + |i.loader.elements| + |i.loader.bannedElements|
              && (forall k :: 0 <= k < |i.closeTasks| ==> r.1[k] == RanTask(i.closeTasks[k]))
              && (forall k :: 0 <= k < |i.loader.elements| ==>
                    r.1[|i.closeTasks| + k] == ClosedElement(i.loader.elements[k]))
              && (forall k :: 0 <= k < |i.loader.bannedElements| ==>
                    r.1[|i.closeTasks| + |i.loader.elements| + k] == ClosedElement(i.loader.bannedElements[k]))
    ensures r.0.loader == i.loader && r.0.cache == i.cache && r.0.closeTasks == i.closeTasks
    ensures Valid(i) ==> Valid(r.0)
  {
    var (proceed, closing) := BeginClose(i);
    if !proceed then (i, [])
    else
      var effects := RunTasks(closing.closeTasks) + CloseElements(closing.loader.elements)
                     + CloseElements(closing.loader.bannedElements);
      (closing.(status := STATUS_CLOSED), effects)
  }

  /** Closing twice is closing once: the second call runs no task and changes nothing. */
  lemma CloseIdempotent(i: Instance)
    ensures Close(Close(i).0) == (Close(i).0, [])
  {
  }

  /** A task added to an open loader runs at `close`, right after the tasks
      added before it; a task added after `close` never runs. */
  lemma AddedTaskRuns(i: Instance, t: Task)
    ensures i.status == STATUS_OPEN ==>
              && Close(AddCloseTask(i, t)).1[|i.closeTasks|] == RanTask(t)
              && Close(AddCloseTask(i, t)).1[..|i.closeTasks|] == Close(i).1[..|i.closeTasks|]
    ensures IsClosed(i) ==> Close(AddCloseTask(i, t)).1 == []
  {
  }

  /** `loadClass` on the running loader: it answers as the model of
      `loadClass` does and caches the state it used. A class found is
      remembered by the loader that defined it, this one or a Quarkus
      ancestor, so that later requests there (even after a reset) return it. */
  function Load(i: Instance, name: string): (r: (Lookup<ClassRef>, Instance))
    requires Valid(i)
    ensures r.0 == LoadClass(i.loader, name)
    ensures Valid(r.1)
    ensures r.1.status == i.status && r.1.closeTasks == i.closeTasks
    ensures r.1.loader == i.loader.(defined := r.1.loader.defined, parent := r.1.loader.parent)
    ensures ChainIds(r.1.loader.parent) == ChainIds(i.loader.parent)
    ensures WellIdentified(i.loader) ==> WellIdentified(r.1.loader)
    ensures r.0.Found? && r.0.value.Defined? && r.0.value.loader == i.loader.id ==>
              r.1.loader.defined == i.loader.defined[name := r.0.value] && r.1.loader.parent == i.loader.parent
    ensures !(r.0.Found? && r.0.value.Defined? && r.0.value.loader == i.loader.id) ==> r.1.loader.defined == i.loader.defined
    // a class the Quarkus parent defined is remembered by the parent
    ensures i.loader.parent.Delegate? && r.0.Found? && r.0.value.Defined? &&
            r.0.value.loader == i.loader.parent.loader.id && r.0.value.loader != i.loader.id ==>
              r.1.loader.parent.Delegate? &&
              r.1.loader.parent.loader.defined == i.loader.parent.loader.defined[name := r.0.value]
    // only defined classes change, at every level of the chain; the class is
    // remembered by the loader that defined it, and by no other
    ensures SameButDefined(i.loader, r.1.loader)
    // the state a non-"java." lookup builds is cached
    ensures !StartsWith(name, JAVA) && BuildState(i.loader).Success? ==> r.1.cache == Some(BuildState(i.loader).value)
    ensures StartsWith(name, JAVA) ==> r.1.cache == i.cache
    ensures r.0.Found? && r.0.value.Defined? && (r.0.value.loader == i.loader.id || r.0.value.loader in ChainIds(i.loader.parent)) ==>
              DefinedAt(r.1.loader, r.0.value.loader) == DefinedAt(i.loader, r.0.value.loader)[name := r.0.value]
    ensures forall id :: !(r.0.Found? && r.0.value.Defined? && id == r.0.value.loader) ==>
              DefinedAt(r.1.loader, id) == DefinedAt(i.loader, id)
  {
    var answer := LoadClass(i.loader, name);
    var j := if StartsWith(name, JAVA) then i else GetState(i).1;
    if answer.Found? then
      var l := Record(j.loader, name, answer.value);
      StateIgnoresHistory(j.loader, l);
      (answer, j.(loader := l))
    else
      SameButDefinedReflexive(i.loader);
      (answer, j)
  }

  /** Loading a class twice gives the same answer, when the loaders along
      the chain have distinct identities. */
  lemma LoadIdempotent(i: Instance, name: string)
    requires Valid(i) && WellIdentified(i.loader)
    ensures Load(Load(i, name).1, name).0 == Load(i, name).0
  {
    if LoadClass(i.loader, name).Found? {
      RecordKeepsAnswer(i.loader, name);
    }
  }

  /** `getResources` on the running loader: it answers as the model of
      `getResources` does and caches the state; the class its
      `META-INF/services/` check loads is remembered by the loader that
      defined it, here and in every Quarkus parent the lookup reaches. */
  function Resources(i: Instance, unsanitised: string, parentAlreadyFound: bool): (r: (Result<seq<Url>, Fault>, Instance))
    requires Valid(i)
    ensures r.0 == GetResources(i.loader, unsanitised, parentAlreadyFound)
    ensures Valid(r.1)
    ensures r.1.status == i.status && r.1.closeTasks == i.closeTasks
    ensures r.1.loader == i.loader.(defined := r.1.loader.defined, parent := r.1.loader.parent)
    ensures ChainIds(r.1.loader.parent) == ChainIds(i.loader.parent)
    ensures WellIdentified(i.loader) ==> WellIdentified(r.1.loader)
    ensures !ClaimsRootedName(i.loader.elements) && DefinesService(i.loader, SanitizeName(unsanitised)) ==>
              var service := SanitizeName(unsanitised)[|META_INF_SERVICES|..];
              r.1.loader.defined == i.loader.defined[service := LoadClass(i.loader, service).value]
    ensures !DefinesService(i.loader, SanitizeName(unsanitised)) ==> r.1.loader.defined == i.loader.defined
    ensures SameButDefined(i.loader, r.1.loader)
    ensures BuildState(i.loader).Success? ==> r.1.cache == Some(BuildState(i.loader).value)
  {
    var j := GetState(i).1;
    var l := RecordServiceLoads(i.loader, unsanitised, parentAlreadyFound);
    StateIgnoresHistory(i.loader, l);
    (GetResources(i.loader, unsanitised, parentAlreadyFound), j.(loader := l))
  }

  /** One transition of a running loader. */
  datatype Step =
    | LoadStep(name: string)
    | ResourcesStep(resource: string, parentAlreadyFound: bool)
    | StateStep
    | ResetStep(generated: map<string, Data>, transformedClasses: map<string, Data>, transformedId: nat)
    | AddTaskStep(task: Task)
    | CloseStep

  /** The loader after one transition (a refused reset leaves it as it was).
      No transition raises the status or forgets a close task. */
  function Apply(i: Instance, s: Step): (r: Instance)
    requires Valid(i)
    ensures Valid(r)
    ensures r.status <= i.status
    ensures |i.closeTasks| <= |r.closeTasks| && r.closeTasks[..|i.closeTasks|] == i.closeTasks
  {
    match s
    case LoadStep(name) => Load(i, name).1
    case ResourcesStep(resource, found) => Resources(i, resource, found).1
    case StateStep => GetState(i).1
    case ResetStep(generated, transformedClasses, transformedId) =>
      (match Reset(i, generated, transformedClasses, transformedId)
       case Success(j) => j
       case Failure(_) => i)
    case AddTaskStep(t) => AddCloseTask(i, t)
    case CloseStep => Close(i).0
  }

  /** The loader after a sequence of transitions. */
  function Run(i: Instance, steps: seq<Step>): (r: Instance)
    requires Valid(i)
    ensures Valid(r)
    decreases |steps|
  {
    if steps == [] then i else Run(Apply(i, steps[0]), steps[1..])
  }

  /** Across any sequence of transitions the status never goes up (a closed
      loader stays closed) and the close tasks only grow. */
  lemma {:induction false} StatusNeverRises(i: Instance, steps: seq<Step>)
    requires Valid(i)
    ensures Run(i, steps).status <= i.status
    ensures IsClosed(i) ==> IsClosed(Run(i, steps))
    ensures |i.closeTasks| <= |Run(i, steps).closeTasks| && Run(i, steps).closeTasks[..|i.closeTasks|] == i.closeTasks
    decreases |steps|
  {
    if steps != [] {
      var j := Apply(i, steps[0]);
      StatusNeverRises(j, steps[1..]);
      var all := Run(i, steps).closeTasks;
      assert all[..|j.closeTasks|][..|i.closeTasks|] == all[..|i.closeTasks|];
    }
  }

  /** After a reset, a class whose loader remembered it before the reset is
      still what the loader that defined it answers; here the class a Quarkus
      parent defined on delegation. */
  lemma ParentDefinitionSurvivesReset(i: Instance, name: string, generated: map<string, Data>,
                                      transformedClasses: map<string, Data>, transformedId: nat)
    requires Valid(i) && WellIdentified(i.loader)
    requires !StartsWith(name, JAVA)
    requires i.loader.parent.Delegate?
    requires var answer := LoadClass(i.loader, name);
             && answer.Found? && answer.value.Defined?
             && answer.value.loader == i.loader.parent.loader.id && answer.value.loader != i.loader.id
    requires i.loader.resettable.Some?
    ensures var k := Reset(Load(i, name).1, generated, transformedClasses, transformedId).value;
            ParentLoadClass(k.loader.parent, name) == Load(i, name).0
  {
    var j := Load(i, name).1;
    var k := Reset(j, generated, transformedClasses, transformedId).value;
    var pl := i.loader.parent.loader;
    var c := Load(i, name).0.value;
    ForeignClassFromParent(i.loader, name);
    assert !ClaimsRootedName(pl.elements);
    assert j.loader.parent == Delegate(Record(pl, name, c));
    var pl' := k.loader.parent.loader;
    assert pl'.elements == pl.elements && pl'.defined == pl.defined[name := c];
    LoadClassAlreadyDefined(pl', name);
  }

  /** After `getResources` on the descriptor of a service class this loader
      defines itself, a reset does not change the class it then loads. */
  lemma ServiceDefinitionSurvivesReset(i: Instance, unsanitised: string, parentAlreadyFound: bool,
                                       generated: map<string, Data>, transformedClasses: map<string, Data>, transformedId: nat)
    requires Valid(i)
    requires !ClaimsRootedName(i.loader.elements)
    requires DefinesService(i.loader, SanitizeName(unsanitised))
    requires !StartsWith(SanitizeName(unsanitised)[|META_INF_SERVICES|..], JAVA)
    requires i.loader.resettable.Some?
    requires forall n :: n in generated ==> !StartsWith(n, "/")
    ensures var service := SanitizeName(unsanitised)[|META_INF_SERVICES|..];
            var k := Reset(Resources(i, unsanitised, parentAlreadyFound).1, generated, transformedClasses, transformedId).value;
            Load(k, service).0 == LoadClass(i.loader, service)
  {
    var service := SanitizeName(unsanitised)[|META_INF_SERVICES|..];
    var j := Resources(i, unsanitised, parentAlreadyFound).1;
    var k := Reset(j, generated, transformedClasses, transformedId).value;
    ResetKeepsNamesRelative(j, generated, transformedClasses, transformedId);
    assert k.loader.defined == j.loader.defined;
    assert service in k.loader.defined;
  }

  /** A reset whose generated names do not start with '/' keeps a loader's
      state buildable. */
  lemma ResetKeepsNamesRelative(i: Instance, generated: map<string, Data>, transformedClasses: map<string, Data>,
                                transformedId: nat)
    requires i.loader.resettable.Some? && !ClaimsRootedName(i.loader.elements)
    requires forall n :: n in generated ==> !StartsWith(n, "/")
    ensures !ClaimsRootedName(Reset(i, generated, transformedClasses, transformedId).value.loader.elements)
  {
    var l := Reset(i, generated, transformedClasses, transformedId).value.loader;
    forall k, n | 0 <= k < |l.elements| && n in l.elements[k].provided
      ensures !StartsWith(n, "/")
    {
      if i.loader.elements[k] != i.loader.resettable.value {
        assert n in i.loader.elements[k].provided;
      }
    }
  }

  /** Right after a reset, a class among the new generated resources (and not
      among the transformed classes) loads from the new bytes, when the
      resettable element heads the element list, as `Build` puts it, and is
      not lesser-priority. */
  lemma ResetThenLoadGenerated(i: Instance, generated: map<string, Data>, transformedClasses: map<string, Data>,
                               transformedId: nat, name: string)
    requires i.loader.resettable.Some?
    requires |i.loader.elements| > 0 && i.loader.elements[0] == i.loader.resettable.value
    requires forall k :: 0 <= k < |i.loader.lesserPriorityElements| ==>
               i.loader.lesserPriorityElements[k].id != i.loader.resettable.value.id
    requires ClassToResourceName(name) in generated && ClassToResourceName(name) !in transformedClasses
    requires var l := Reset(i, generated, transformedClasses, transformedId).value.loader;
             && ConsultsState(l, name)
             && !Provided(l.bannedElements, ClassToResourceName(name))
             && !ParentFirstName(l, ClassToResourceName(name))
    ensures LoadClass(Reset(i, generated, transformedClasses, transformedId).value.loader, name) ==
              Found(Defined(i.loader.id, name, i.loader.resettable.value.id, generated[ClassToResourceName(name)]))
  {
    var rn := ClassToResourceName(name);
    var l := Reset(i, generated, transformedClasses, transformedId).value.loader;
    var renewed := l.resettable.value;
    assert l.elements[0] == renewed;
    ProvidersOfFirst(l.elements, rn);
    assert renewed !in l.lesserPriorityElements by {
      assert l.lesserPriorityElements == i.loader.lesserPriorityElements;
    }
    assert !Transforms(l.transformed, rn);
    PrioritiseKeepsNormalHead(ProvidersOf(l.elements, rn), l.lesserPriorityElements);
    assert Provided(l.elements, rn) by {
      assert rn in l.elements[0].provided;
    }
    LoadClassFromFirstCandidate(l, name, Fetch(renewed, rn).value);
  }

  /** After a reset, the resettable element no longer stands for a name that
      is absent from the new generated resources. */
  lemma ResetForgetsOldGenerated(i: Instance, generated: map<string, Data>, transformedClasses: map<string, Data>,
                                 transformedId: nat, rn: string)
    requires i.loader.resettable.Some?
    requires rn !in generated && rn !in transformedClasses
    requires !ClaimsRootedName(Reset(i, generated, transformedClasses, transformedId).value.loader.elements)
    ensures var l := Reset(i, generated, transformedClasses, transformedId).value.loader;
            rn in BuildState(l).value.loadable ==> l.resettable.value !in BuildState(l).value.loadable[rn]
  {
    var l := Reset(i, generated, transformedClasses, transformedId).value.loader;
    var st := BuildState(l).value;
    if rn in st.loadable {
      assert !Transforms(l.transformed, rn);
      ProvidersOfSound(l.elements, rn);
      assert l.resettable.value !in ProvidersOf(l.elements, rn);
      assert multiset(st.loadable[rn]) == multiset(ProvidersOf(l.elements, rn));
      assert l.resettable.value !in multiset(st.loadable[rn]);
    }
  }

  /** A class the loader defined before a reset is still the one it returns
      after the reset, whatever the new resources hold. */
  lemma DefinedSurvivesReset(i: Instance, name: string, generated: map<string, Data>,
                             transformedClasses: map<string, Data>, transformedId: nat)
    requires Valid(i)
    requires !StartsWith(name, JAVA)
    requires var answer := Load(i, name).0;
             answer.Found? && answer.value.Defined? && answer.value.loader == i.loader.id
    requires Reset(Load(i, name).1, generated, transformedClasses, transformedId).Success?
    requires !ClaimsRootedName(Reset(Load(i, name).1, generated, transformedClasses, transformedId).value.loader.elements)
    ensures Load(Reset(Load(i, name).1, generated, transformedClasses, transformedId).value, name).0 == Load(i, name).0
  {
    var j := Load(i, name).1;
    var k := Reset(j, generated, transformedClasses, transformedId).value;
    assert k.loader.defined == j.loader.defined;
    assert name in k.loader.defined;
  }
}
