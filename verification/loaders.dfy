/** The configuration of a `QuarkusClassLoader` and its `Builder`. The parent
    is recursive: either another Quarkus class loader or a terminal resolver
    (the platform or system class loader) whose answers are given as data. */
module Loaders {
  import opened Wrappers
  import opened Elements

  /** A loaded class: one the terminal resolver supplies, or one defined by
      the loader whose identity is `loader`, from the bytes of element
      `source`. */
  datatype ClassRef =
    | PlatformClass(name: string)
    | Defined(loader: nat, name: string, source: nat, data: Data)

  /** The fatal faults the loader raises. */
  datatype Fault =
    | InvalidResourceName                             // an element provides a name starting with '/'
    | ProviderFailed(resource: string, provider: nat) // the winning candidate could not produce the name
    | NotResettable                                   // reset without a resettable element

  /** The outcome of a single-name lookup: a value, not found (null or
      `ClassNotFoundException`), or a fault thrown through. */
  datatype Lookup<+T> = Found(value: T) | Missing | Failed(fault: Fault)

  /** What `getResourceAsStream` hands back: the bytes of a resource, or a
      stream opened on a (directory) URL. */
  datatype Stream = Bytes(data: Data) | UrlStream(url: Url)

  /** The terminal resolver, given by what it answers for each name. */
  datatype Terminal = Terminal(classes: set<string>, urls: map<string, seq<Url>>, contents: map<string, Data>)

  datatype Parent = Platform(terminal: Terminal) | Delegate(loader: Loader)

  /** A built loader. `id` stands for the object's identity, which is what
      `getClassLoader() == this` compares; `transformed` is the in-memory element of transformed
      classes, `resettable` the optional in-memory element of generated
      resources, and `defined` the classes this loader has already defined
      (what `findLoadedClass` returns). */
  datatype Loader = Loader(
    name: string,
    id: nat,
    parent: Parent,
    parentFirst: bool,
    aggregateParentResources: bool,
    elements: seq<Element>,
    bannedElements: seq<Element>,
    parentFirstElements: seq<Element>,
    lesserPriorityElements: seq<Element>,
    transformed: Element,
    resettable: Option<Element>,
    defined: map<string, ClassRef>)

  /** The identities of the Quarkus loaders above a loader. */
  function ChainIds(p: Parent): set<nat>
    decreases p
  {
    match p
    case Platform(_) => {}
    case Delegate(pl) => {pl.id} + ChainIds(pl.parent)
  }

  /** Distinct objects have distinct identities: no loader shares its id
      with an ancestor, and what `findLoadedClass` remembers was defined by
      the loader itself. */
  predicate WellIdentified(l: Loader)
    decreases l
  {
    && l.id !in ChainIds(l.parent)
    && (forall n :: n in l.defined ==> l.defined[n].Defined? && l.defined[n].loader == l.id)
    && (l.parent.Delegate? ==> WellIdentified(l.parent.loader))
  }

  /** The length of the chain of Quarkus ancestors. */
  function Depth(l: Loader): nat
    decreases l
  {
    match l.parent
    case Platform(_) => 0
    case Delegate(pl) => 1 + Depth(pl)
  }

  /** The two loaders, and their chains of Quarkus ancestors level by level,
      differ at most in the classes they have defined. */
  predicate SameButDefined(l: Loader, r: Loader)
    decreases l
  {
    && r == l.(defined := r.defined, parent := r.parent)
    && match l.parent
       case Platform(_) => r.parent == l.parent
       case Delegate(pl) => r.parent.Delegate? && SameButDefined(pl, r.parent.loader)
  }

  lemma {:induction false} SameButDefinedReflexive(l: Loader)
    ensures SameButDefined(l, l)
    decreases l
  {
    if l.parent.Delegate? {
      SameButDefinedReflexive(l.parent.loader);
    }
  }

  lemma {:induction false} SameButDefinedTransitive(a: Loader, b: Loader, c: Loader)
    requires SameButDefined(a, b) && SameButDefined(b, c)
    ensures SameButDefined(a, c)
    decreases a
  {
    if a.parent.Delegate? {
      SameButDefinedTransitive(a.parent.loader, b.parent.loader, c.parent.loader);
    }
  }

  /** What `findLoadedClass` remembers in the first loader of the chain whose
      identity is `id`; nothing when no loader of the chain has it. */
  function DefinedAt(l: Loader, id: nat): map<string, ClassRef>
    decreases l
  {
    if l.id == id then l.defined
    else
      match l.parent
      case Platform(_) => map[]
      case Delegate(pl) => DefinedAt(pl, id)
  }

  /** `defineClass` records the class with its defining loader, wherever in
      the chain that loader is: afterwards that loader's `findLoadedClass`
      returns it. A class no loader of the chain defined is recorded nowhere. */
  function Record(l: Loader, name: string, c: ClassRef): (r: Loader)
    decreases l
    ensures r == l.(defined := r.defined, parent := r.parent)
    ensures ChainIds(r.parent) == ChainIds(l.parent) && Depth(r) == Depth(l)
    ensures c.Defined? && c.loader == l.id ==> r.defined == l.defined[name := c] && r.parent == l.parent
    ensures !(c.Defined? && c.loader == l.id) ==> r.defined == l.defined
    ensures !c.Defined? || (c.loader != l.id && c.loader !in ChainIds(l.parent)) ==> r == l
    ensures WellIdentified(l) ==> WellIdentified(r)
    ensures SameButDefined(l, r)
    // the defining loader remembers the class, and no other loader changes
    ensures c.Defined? && (c.loader == l.id || c.loader in ChainIds(l.parent)) ==>
              DefinedAt(r, c.loader) == DefinedAt(l, c.loader)[name := c]
    ensures forall id :: !(c.Defined? && id == c.loader) ==> DefinedAt(r, id) == DefinedAt(l, id)
  {
    SameButDefinedReflexive(l);
    if c.Defined? && c.loader == l.id then l.(defined := l.defined[name := c])
    else
      match l.parent
      case Platform(_) => l
      case Delegate(pl) => l.(parent := Delegate(Record(pl, name, c)))
  }

  function TerminalLoadClass(t: Terminal, name: string): Lookup<ClassRef> {
    if name in t.classes then Found(PlatformClass(name)) else Missing
  }

  function TerminalResources(t: Terminal, name: string): seq<Url> {
    if name in t.urls then t.urls[name] else []
  }

  function TerminalResource(t: Terminal, name: string): Lookup<Url> {
    var all := TerminalResources(t, name);
    if |all| > 0 then Found(all[0]) else Missing
  }

  function TerminalStream(t: Terminal, name: string): Lookup<Stream> {
    if name in t.contents then Found(Bytes(t.contents[name])) else Missing
  }

  /** `QuarkusClassLoader.Builder` before `build`. */
  datatype Builder = Builder(
    name: string,
    parent: Parent,
    parentFirst: bool,
    elements: seq<Element>,
    bannedElements: seq<Element>,
    parentFirstElements: seq<Element>,
    lesserPriorityElements: seq<Element>,
    resettable: Option<Element>,
    transformedClasses: map<string, Data>,
    aggregateParentResources: bool)

  /** The element list without any occurrence of `x`. */
  function Without(s: seq<Element>, x: Element): (r: seq<Element>)
    ensures x !in r
    ensures forall e :: e in r <==> e in s && e != x
  {
    if s == [] then [] else (if s[0] == x then [] else [s[0]]) + Without(s[1..], x)
  }

  /** `Builder.build`. `id` is the identity of the new loader and
      `transformedId` that of the fresh in-memory element that wraps the
      transformed classes. */
  function Build(b: Builder, id: nat, transformedId: nat): (l: Loader)
    // a resettable element is always among the elements ...
    ensures b.resettable.Some? ==> b.resettable.value in l.elements
    // ... but never added twice
    ensures b.resettable.Some? ==>
              multiset(l.elements)[b.resettable.value] == if b.resettable.value in b.elements then multiset(b.elements)[b.resettable.value] else 1
    // when it is added, it is added in front of everything else
    ensures b.resettable.Some? && b.resettable.value !in b.elements ==> l.elements[0] == b.resettable.value
    // when it is already there, the list is left as it is
    ensures b.resettable.Some? && b.resettable.value in b.elements ==> l.elements == b.elements
    // the other elements keep their order
    ensures b.resettable.Some? ==> Without(l.elements, b.resettable.value) == Without(b.elements, b.resettable.value)
    ensures b.resettable.None? ==> l.elements == b.elements
    ensures l.transformed == MemoryElement(transformedId, b.transformedClasses)
    ensures l.resettable == b.resettable && l.defined == map[]
    ensures l.id == id && l.name == b.name && l.parent == b.parent && l.parentFirst == b.parentFirst
    ensures l.aggregateParentResources == b.aggregateParentResources
    ensures l.bannedElements == b.bannedElements && l.parentFirstElements == b.parentFirstElements
    ensures l.lesserPriorityElements == b.lesserPriorityElements
  {
    var elements :=
      if b.resettable.Some? && b.resettable.value !in b.elements then [b.resettable.value] + b.elements
      else b.elements;
    assert b.resettable.Some? && b.resettable.value !in b.elements ==> elements[1..] == b.elements;
    Loader(b.name, id, b.parent, b.parentFirst, b.aggregateParentResources, elements, b.bannedElements,
           b.parentFirstElements, b.lesserPriorityElements, MemoryElement(transformedId, b.transformedClasses),
           b.resettable, map[])
  }
}
