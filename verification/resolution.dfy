/** Single-name resolution: `loadClass`, `getResource`, `getResourceAsStream`
    and `isParentFirst`. Each call rebuilds the resolution state with
    `BuildState`, which is what the cached state of a loader equals (see the
    lifecycle module). */
module Resolution {
  import opened Wrappers
  import opened Names
  import opened Elements
  import opened Loaders
  import opened ResolutionState

  /** `parentFirst(name, state)`: the loader-wide flag, or a parent-first name. */
  predicate ParentFirstIn(l: Loader, st: State, resourceName: string) {
    l.parentFirst || resourceName in st.parentFirst
  }

  /** `isParentFirst`: true for `java.` names; otherwise the loader-wide flag
      or a parent-first element claiming the class's resource name. */
  function IsParentFirst(l: Loader, className: string): (r: Result<bool, Fault>)
    ensures StartsWith(className, JAVA) ==> r == Success(true)
    ensures !StartsWith(className, JAVA) ==> (r.Failure? <==> ClaimsRootedName(l.elements))
    ensures !StartsWith(className, JAVA) && r.Success? ==>
              (r.value <==> l.parentFirst || Provided(l.parentFirstElements, ClassToResourceName(className)))
  {
    if StartsWith(className, JAVA) then Success(true)
    else
      var st :- BuildState(l);
      Success(ParentFirstIn(l, st, ClassToResourceName(className)))
  }

  /** `parent.loadClass(name)`. */
  function ParentLoadClass(p: Parent, name: string): Lookup<ClassRef>
    decreases p, 0
  {
    match p
    case Platform(t) => TerminalLoadClass(t, name)
    case Delegate(pl) => LoadClass(pl, name)
  }

  /** The class this loader defines from its first candidate for `rn`, or
      nothing when there is no candidate or the candidate cannot produce the
      bytes (which `loadClass` silently tolerates). */
  function DefineFromFirst(l: Loader, st: State, className: string, rn: string): Option<ClassRef> {
    if rn in st.loadable && |st.loadable[rn]| > 0 then
      var e := st.loadable[rn][0];
      match Fetch(e, rn)
      case Some(res) => Some(Defined(l.id, className, e.id, res.data))
      case None => None
    else None
  }

  /** `loadClass(name, resolve)`: `java.` names go to the parent; then a class
      this loader already defined; then a banned name is not found; then, for
      a parent-first name, a parent hit wins; then the first local candidate;
      and the parent as a fallback only for a name that is not parent-first. */
  function LoadClass(l: Loader, name: string): (r: Lookup<ClassRef>)
    decreases l, 1
    ensures StartsWith(name, JAVA) ==> r == ParentLoadClass(l.parent, name)
    ensures !StartsWith(name, JAVA) && ClaimsRootedName(l.elements) ==> r == Failed(InvalidResourceName)
  {
    if StartsWith(name, JAVA) then ParentLoadClass(l.parent, name)
    else
      match BuildState(l)
      case Failure(f) => Failed(f)
      case Success(st) =>
        if name in l.defined then Found(l.defined[name])
        else
          var rn := ClassToResourceName(name);
          if rn in st.banned then Missing
          else
            var pf := ParentFirstIn(l, st, rn);
            // only ClassNotFoundException from the parent is swallowed
            var early := if pf then ParentLoadClass(l.parent, name) else Missing;
            if !early.Missing? then early
            else
              match DefineFromFirst(l, st, name, rn)
              case Some(c) => Found(c)
              case None => if !pf then ParentLoadClass(l.parent, name) else Missing
  }

  /** The element answers `name`, and for a trailing-slash lookup the answer is a directory. */
  predicate Admits(e: Element, name: string, slash: bool) {
    Fetch(e, name).Some? && (!slash || Fetch(e, name).value.isDirectory)
  }

  /** The URL a local hit yields: with a trailing '/' appended for a trailing-slash lookup. */
  function LocalUrl(res: Resource, slash: bool): Url {
    if slash then DirOf(res.url) else res.url
  }

  /** The loop over `elements` for names that are not classes: the index of the
      first element that admits the name, or `|els|` when none does. */
  function FirstAdmitting(els: seq<Element>, name: string, slash: bool): (k: nat)
    ensures k <= |els|
    ensures k < |els| ==> Admits(els[k], name, slash)
    ensures forall j :: 0 <= j < k ==> !Admits(els[j], name, slash)
  {
    if els == [] then 0
    else if Admits(els[0], name, slash) then 0
    else 1 + FirstAdmitting(els[1..], name, slash)
  }

  /** `parent.getResource(name)`. */
  function ParentGetResource(p: Parent, name: string): Lookup<Url>
    decreases p, 0
  {
    match p
    case Platform(t) => TerminalResource(t, name)
    case Delegate(pl) => GetResource(pl, name)
  }

  /** What this loader itself answers to `getResource` for a sanitised,
      non-banned name: nothing when the parent is to be asked. */
  function LocalResource(l: Loader, st: State, name: string, slash: bool): Option<Lookup<Url>> {
    if EndsWith(name, CLASS_SUFFIX) && !slash then
      if name in st.loadable && |st.loadable[name]| > 0 then
        var e := st.loadable[name][0];
        match Fetch(e, name)
        case None => Some(Failed(ProviderFailed(name, e.id)))
        case Some(res) => Some(Found(res.url))
      else None
    else
      var k := FirstAdmitting(l.elements, name, slash);
      if k < |l.elements| then Some(Found(LocalUrl(Fetch(l.elements[k], name).value, slash)))
      else None
  }

  /** `getResource`. A `.class` name (without trailing '/') is answered by its
      first candidate, which must produce it; any other name by the first
      element in list order that has it. Banned names are not found. */
  function GetResource(l: Loader, unsanitised: string): (r: Lookup<Url>)
    decreases l, 1
    ensures ClaimsRootedName(l.elements) ==> r == Failed(InvalidResourceName)
  {
    var name := SanitizeName(unsanitised);
    match BuildState(l)
    case Failure(f) => Failed(f)
    case Success(st) =>
      if name in st.banned then Missing
      else
        match LocalResource(l, st, name, EndsWith(unsanitised, "/"))
        case Some(answer) => answer
        case None => ParentGetResource(l.parent, unsanitised)
  }

  /** `parent.getResourceAsStream(name)`. */
  function ParentGetResourceAsStream(p: Parent, name: string): Lookup<Stream>
    decreases p, 0
  {
    match p
    case Platform(t) => TerminalStream(t, name)
    case Delegate(pl) => GetResourceAsStream(pl, name)
  }

  /** What this loader itself answers to `getResourceAsStream` for a
      sanitised, non-banned name: nothing when the parent is to be asked. */
  function LocalStream(l: Loader, st: State, name: string): Option<Lookup<Stream>> {
    if EndsWith(name, CLASS_SUFFIX) then
      if name in st.loadable && |st.loadable[name]| > 0 then
        var e := st.loadable[name][0];
        match Fetch(e, name)
        case None => Some(Failed(ProviderFailed(name, e.id)))
        case Some(res) => Some(Found(Bytes(res.data)))
      else None
    else
      var k := FirstAdmitting(l.elements, name, false);
      if k < |l.elements| then
        var res := Fetch(l.elements[k], name).value;
        Some(Found(if res.isDirectory then UrlStream(res.url) else Bytes(res.data)))
      else None
  }

  /** `getResourceAsStream`: as `getResource`, but a `.class` name takes the
      candidate path even with a trailing '/', and a directory is opened as a
      URL stream. */
  function GetResourceAsStream(l: Loader, unsanitised: string): (r: Lookup<Stream>)
    decreases l, 1
    ensures ClaimsRootedName(l.elements) ==> r == Failed(InvalidResourceName)
  {
    var name := SanitizeName(unsanitised);
    match BuildState(l)
    case Failure(f) => Failed(f)
    case Success(st) =>
      if name in st.banned then Missing
      else
        match LocalStream(l, st, name)
        case Some(answer) => answer
        case None => ParentGetResourceAsStream(l.parent, unsanitised)
  }

  /** The conditions under which `loadClass` consults the resolution state:
      not a `java.` name, a valid configuration, and not defined before. */
  predicate ConsultsState(l: Loader, name: string) {
    !StartsWith(name, JAVA) && !ClaimsRootedName(l.elements) && name !in l.defined
  }

  /** A name is parent-first by the loader flag or by a parent-first element. */
  predicate ParentFirstName(l: Loader, rn: string) {
    l.parentFirst || Provided(l.parentFirstElements, rn)
  }

  /** A class defined earlier is returned again, before any other rule (even a ban) applies. */
  lemma LoadClassAlreadyDefined(l: Loader, name: string)
    requires !StartsWith(name, JAVA) && !ClaimsRootedName(l.elements) && name in l.defined
    ensures LoadClass(l, name) == Found(l.defined[name])
  {
  }

  /** A banned class is not found, whatever the parent or the elements could supply. */
  lemma LoadClassBanned(l: Loader, name: string)
    requires ConsultsState(l, name)
    requires Provided(l.bannedElements, ClassToResourceName(name))
    ensures LoadClass(l, name) == Missing
  {
  }

  /** For a parent-first name, whatever the parent answers other than "not
      found" wins over every local candidate: its class, or its failure,
      which is not caught. */
  lemma LoadClassParentFirstWins(l: Loader, name: string)
    requires ConsultsState(l, name)
    requires !Provided(l.bannedElements, ClassToResourceName(name))
    requires ParentFirstName(l, ClassToResourceName(name))
    requires !ParentLoadClass(l.parent, name).Missing?
    ensures LoadClass(l, name) == ParentLoadClass(l.parent, name)
  {
  }

  /** Without a usable local candidate the answer is exactly the parent's,
      parent-first or not: no candidate at all, or a first candidate that
      cannot produce the bytes (a closed element), which `loadClass` silently
      passes over. */
  lemma LoadClassNoLocalDefinition(l: Loader, name: string)
    requires ConsultsState(l, name)
    requires !Provided(l.bannedElements, ClassToResourceName(name))
    requires BuildState(l).Success?
    requires DefineFromFirst(l, BuildState(l).value, name, ClassToResourceName(name)).None?
    ensures LoadClass(l, name) == ParentLoadClass(l.parent, name)
  {
  }

  /** A local definition from the first candidate wins unless the name is
      parent-first and the parent answers. */
  lemma LoadClassFromFirstCandidate(l: Loader, name: string, res: Resource)
    requires ConsultsState(l, name)
    requires !Provided(l.bannedElements, ClassToResourceName(name))
    requires !ParentFirstName(l, ClassToResourceName(name)) || ParentLoadClass(l.parent, name).Missing?
    requires ClassToResourceName(name) in BuildState(l).value.loadable
    requires Fetch(BuildState(l).value.loadable[ClassToResourceName(name)][0], ClassToResourceName(name)) == Some(res)
    ensures LoadClass(l, name) ==
              Found(Defined(l.id, name, BuildState(l).value.loadable[ClassToResourceName(name)][0].id, res.data))
  {
  }

  lemma ProvidedByMember(els: seq<Element>, e: Element, n: string)
    requires e in els && n in e.provided
    ensures Provided(els, n)
  {
    var i :| 0 <= i < |els| && els[i] == e;
  }

  /** A class claimed by exactly one element (and not transformed, banned or
      parent-first) is defined from that element's bytes. */
  lemma LoadClassSoleProvider(l: Loader, name: string, e: Element, res: Resource)
    requires ConsultsState(l, name)
    requires !Provided(l.bannedElements, ClassToResourceName(name))
    requires !ParentFirstName(l, ClassToResourceName(name))
    requires ProvidersOf(l.elements, ClassToResourceName(name)) == [e]
    requires !Transforms(l.transformed, ClassToResourceName(name))
    requires Fetch(e, ClassToResourceName(name)) == Some(res)
    ensures LoadClass(l, name) == Found(Defined(l.id, name, e.id, res.data))
  {
    var rn := ClassToResourceName(name);
    ProvidersOfSound(l.elements, rn);
    assert e in ProvidersOf(l.elements, rn);
    ProvidedByMember(l.elements, e, rn);
    LoadClassFromFirstCandidate(l, name, res);
  }

  /** Of two elements claiming a class, the one added first wins, unless it is
      lesser-priority and the other is not. */
  lemma LoadClassEarlierProviderWins(l: Loader, name: string, a: Element, b: Element, ra: Resource, rb: Resource)
    requires ConsultsState(l, name)
    requires !Provided(l.bannedElements, ClassToResourceName(name))
    requires !ParentFirstName(l, ClassToResourceName(name))
    requires ProvidersOf(l.elements, ClassToResourceName(name)) == [a, b]
    requires !Transforms(l.transformed, ClassToResourceName(name))
    requires Fetch(a, ClassToResourceName(name)) == Some(ra)
    requires Fetch(b, ClassToResourceName(name)) == Some(rb)
    ensures a in l.lesserPriorityElements && b !in l.lesserPriorityElements ==>
              LoadClass(l, name) == Found(Defined(l.id, name, b.id, rb.data))
    ensures !(a in l.lesserPriorityElements && b !in l.lesserPriorityElements) ==>
              LoadClass(l, name) == Found(Defined(l.id, name, a.id, ra.data))
  {
    var rn := ClassToResourceName(name);
    var lesser := l.lesserPriorityElements;
    ProvidersOfSound(l.elements, rn);
    assert a in ProvidersOf(l.elements, rn);
    ProvidedByMember(l.elements, a, rn);
    PrioritisePair(a, b, lesser);
    var winner := Prioritise([a, b], lesser)[0];
    if winner == a {
      LoadClassFromFirstCandidate(l, name, ra);
    } else {
      LoadClassFromFirstCandidate(l, name, rb);
    }
  }

  lemma PrioritisePair(a: Element, b: Element, lesser: seq<Element>)
    ensures |Prioritise([a, b], lesser)| == 2
    ensures Prioritise([a, b], lesser)[0] == if a in lesser && b !in lesser then b else a
  {
    if |lesser| > 0 {
      assert [a, b][1..] == [b];
      assert Group([b], lesser, false) == (if b in lesser then [] else [b]);
      assert Group([b], lesser, true) == (if b in lesser then [b] else []);
    }
  }

  /** A transformed class overrides every element claiming its name. */
  lemma LoadClassTransformedWins(l: Loader, name: string)
    requires ConsultsState(l, name)
    requires !Provided(l.bannedElements, ClassToResourceName(name))
    requires !ParentFirstName(l, ClassToResourceName(name))
    requires Provided(l.elements, ClassToResourceName(name))
    requires Transforms(l.transformed, ClassToResourceName(name))
    ensures LoadClass(l, name) ==
              Found(Defined(l.id, name, l.transformed.id, Fetch(l.transformed, ClassToResourceName(name)).value.data))
  {
    LoadClassFromFirstCandidate(l, name, Fetch(l.transformed, ClassToResourceName(name)).value);
  }

  /** A name some element claims cannot start with '/' in a valid configuration. */
  lemma ProvidedNotRooted(els: seq<Element>, n: string)
    requires Provided(els, n) && !ClaimsRootedName(els)
    ensures !StartsWith(n, "/")
  {
    var i :| 0 <= i < |els| && n in els[i].provided;
  }

  /** A banned name is neither found by `getResource` nor by `getResourceAsStream`. */
  lemma GetResourceBanned(l: Loader, unsanitised: string)
    requires !ClaimsRootedName(l.elements)
    requires Provided(l.bannedElements, SanitizeName(unsanitised))
    ensures GetResource(l, unsanitised) == Missing
    ensures GetResourceAsStream(l, unsanitised) == Missing
  {
  }

  /** When the first candidate of a class cannot produce it, `getResource` and
      `getResourceAsStream` fail loudly while `loadClass` falls through to the
      parent. */
  lemma ClosedProviderAsymmetry(l: Loader, name: string)
    requires ConsultsState(l, name)
    requires !Provided(l.bannedElements, ClassToResourceName(name))
    requires ClassToResourceName(name) in BuildState(l).value.loadable
    requires Fetch(BuildState(l).value.loadable[ClassToResourceName(name)][0], ClassToResourceName(name)).None?
    ensures GetResource(l, ClassToResourceName(name)) ==
              Failed(ProviderFailed(ClassToResourceName(name), BuildState(l).value.loadable[ClassToResourceName(name)][0].id))
    ensures GetResourceAsStream(l, ClassToResourceName(name)) ==
              Failed(ProviderFailed(ClassToResourceName(name), BuildState(l).value.loadable[ClassToResourceName(name)][0].id))
    ensures LoadClass(l, name) == ParentLoadClass(l.parent, name)
  {
    var rn := ClassToResourceName(name);
    ProvidedNotRooted(l.elements, rn);
    assert !EndsWith(rn, "/");
    assert SanitizeName(rn) == rn;
  }

  /** `loadClass`, `getResource` and `getResourceAsStream` agree on the
      element that supplies a class that is not parent-first. */
  lemma ClassPathsAgree(l: Loader, name: string, res: Resource)
    requires ConsultsState(l, name)
    requires !Provided(l.bannedElements, ClassToResourceName(name))
    requires !ParentFirstName(l, ClassToResourceName(name))
    requires ClassToResourceName(name) in BuildState(l).value.loadable
    requires Fetch(BuildState(l).value.loadable[ClassToResourceName(name)][0], ClassToResourceName(name)) == Some(res)
    ensures LoadClass(l, name) ==
              Found(Defined(l.id, name, BuildState(l).value.loadable[ClassToResourceName(name)][0].id, res.data))
    ensures GetResource(l, ClassToResourceName(name)) == Found(res.url)
    ensures GetResourceAsStream(l, ClassToResourceName(name)) == Found(Bytes(res.data))
  {
    var rn := ClassToResourceName(name);
    ProvidedNotRooted(l.elements, rn);
    assert !EndsWith(rn, "/");
    assert SanitizeName(rn) == rn;
    LoadClassFromFirstCandidate(l, name, res);
  }

  /** A resource that is not a class (or is asked for with a trailing '/') is
      served by the first element in list order that admits it, regardless of
      transformed classes and lesser priority. */
  lemma GetResourceFirstElement(l: Loader, unsanitised: string, i: nat)
    requires !ClaimsRootedName(l.elements)
    requires !Provided(l.bannedElements, SanitizeName(unsanitised))
    requires !EndsWith(SanitizeName(unsanitised), CLASS_SUFFIX) || EndsWith(unsanitised, "/")
    requires i < |l.elements| && Admits(l.elements[i], SanitizeName(unsanitised), EndsWith(unsanitised, "/"))
    requires forall j :: 0 <= j < i ==> !Admits(l.elements[j], SanitizeName(unsanitised), EndsWith(unsanitised, "/"))
    ensures GetResource(l, unsanitised) ==
              Found(LocalUrl(Fetch(l.elements[i], SanitizeName(unsanitised)).value, EndsWith(unsanitised, "/")))
    ensures EndsWith(unsanitised, "/") ==> GetResource(l, unsanitised).value.DirOf?
  {
    var k := FirstAdmitting(l.elements, SanitizeName(unsanitised), EndsWith(unsanitised, "/"));
    assert k == i;
  }

  /** A name no element claims or holds is answered by the parent, asked
      with the name as the caller wrote it. */
  lemma GetResourceFromParent(l: Loader, unsanitised: string)
    requires !ClaimsRootedName(l.elements)
    requires !Provided(l.bannedElements, SanitizeName(unsanitised))
    requires !Provided(l.elements, SanitizeName(unsanitised))
    requires forall j :: 0 <= j < |l.elements| ==> Fetch(l.elements[j], SanitizeName(unsanitised)).None?
    ensures GetResource(l, unsanitised) == ParentGetResource(l.parent, unsanitised)
    ensures GetResourceAsStream(l, unsanitised) == ParentGetResourceAsStream(l.parent, unsanitised)
  {
    var name := SanitizeName(unsanitised);
    assert FirstAdmitting(l.elements, name, EndsWith(unsanitised, "/")) == |l.elements|;
    assert FirstAdmitting(l.elements, name, false) == |l.elements|;
  }

  /** A class found through a loader was defined by that loader or by one of
      its Quarkus ancestors (or is a platform class). */
  lemma LoadClassDefiner(l: Loader, name: string)
    requires WellIdentified(l)
    ensures var r := LoadClass(l, name);
            r.Found? && r.value.Defined? ==> r.value.loader == l.id || r.value.loader in ChainIds(l.parent)
    decreases l
  {
    if l.parent.Delegate? {
      LoadClassDefiner(l.parent.loader, name);
    }
  }

  /** A class a loader hands over from its parent was not defined by it. */
  lemma ParentClassIsForeign(l: Loader, name: string)
    requires WellIdentified(l)
    ensures var r := ParentLoadClass(l.parent, name);
            r.Found? && r.value.Defined? ==> r.value.loader != l.id
  {
    if l.parent.Delegate? {
      LoadClassDefiner(l.parent.loader, name);
    }
  }

  /** `loadClass` sees its parent only through the parent's answer: a
      loader whose parent answers the same way answers the same way. */
  lemma LoadClassCongruence(l: Loader, r: Loader, name: string)
    requires r == l.(parent := r.parent)
    requires ParentLoadClass(r.parent, name) == ParentLoadClass(l.parent, name)
    ensures LoadClass(r, name) == LoadClass(l, name)
  {
    if !StartsWith(name, JAVA) {
      StateIgnoresHistory(l, r);
      if BuildState(l).Success? {
        var st := BuildState(l).value;
        assert BuildState(r) == Success(st);
        if name !in l.defined {
          var rn := ClassToResourceName(name);
          assert ParentFirstIn(r, st, rn) == ParentFirstIn(l, st, rn);
          assert DefineFromFirst(r, st, name, rn) == DefineFromFirst(l, st, name, rn);
        }
      }
    }
  }

  /** A class found by a loader that did not define it came from its parent. */
  lemma ForeignClassFromParent(l: Loader, name: string)
    requires WellIdentified(l) && LoadClass(l, name).Found?
    requires var c := LoadClass(l, name).value; !(c.Defined? && c.loader == l.id)
    ensures LoadClass(l, name) == ParentLoadClass(l.parent, name)
  {
  }

  /** Recording the class a lookup found, with the loader that defined it,
      does not change the answer to the same lookup: `findLoadedClass` then
      returns what the definition produced. */
  lemma RecordKeepsAnswer(l: Loader, name: string)
    requires WellIdentified(l) && LoadClass(l, name).Found?
    ensures LoadClass(Record(l, name, LoadClass(l, name).value), name) == LoadClass(l, name)
    decreases l
  {
    var c := LoadClass(l, name).value;
    var r := Record(l, name, c);
    if c.Defined? && c.loader == l.id {
      ParentClassIsForeign(l, name);
      assert !StartsWith(name, JAVA);
      StateIgnoresHistory(l, r);
      assert name in r.defined && r.defined[name] == c;
    } else {
      ForeignClassFromParent(l, name);
      match l.parent
      case Platform(_) =>
      case Delegate(p) =>
        RecordKeepsAnswer(p, name);
        LoadClassCongruence(l, r, name);
    }
  }

  /** The `.class` branch of both lookups, for every class resource with
      candidates and no trailing '/': the first candidate's resource,
      whatever `loadClass` would do with the class (parent-first, defined
      before, or not a class name at all). */
  lemma ClassResourceFromFirstCandidate(l: Loader, unsanitised: string)
    requires !ClaimsRootedName(l.elements)
    requires EndsWith(SanitizeName(unsanitised), CLASS_SUFFIX)
    requires !Provided(l.bannedElements, SanitizeName(unsanitised))
    requires Provided(l.elements, SanitizeName(unsanitised))
    ensures var name := SanitizeName(unsanitised);
            var e := BuildState(l).value.loadable[name][0];
            && (Fetch(e, name).Some? && !EndsWith(unsanitised, "/") ==> GetResource(l, unsanitised) == Found(Fetch(e, name).value.url))
            && (Fetch(e, name).None? && !EndsWith(unsanitised, "/") ==> GetResource(l, unsanitised) == Failed(ProviderFailed(name, e.id)))
    // the stream takes the candidate path even with a trailing '/'
    ensures var name := SanitizeName(unsanitised);
            var e := BuildState(l).value.loadable[name][0];
            && (Fetch(e, name).Some? ==> GetResourceAsStream(l, unsanitised) == Found(Bytes(Fetch(e, name).value.data)))
            && (Fetch(e, name).None? ==> GetResourceAsStream(l, unsanitised) == Failed(ProviderFailed(name, e.id)))
  {
  }

  /** A `.class` name no element provides has no candidate: the stream comes
      from the parent, and so does the URL when no '/' was asked for. */
  lemma ClassResourceFromParent(l: Loader, unsanitised: string)
    requires !ClaimsRootedName(l.elements)
    requires EndsWith(SanitizeName(unsanitised), CLASS_SUFFIX)
    requires !Provided(l.bannedElements, SanitizeName(unsanitised))
    requires !Provided(l.elements, SanitizeName(unsanitised))
    ensures GetResourceAsStream(l, unsanitised) == ParentGetResourceAsStream(l.parent, unsanitised)
    ensures !EndsWith(unsanitised, "/") ==> GetResource(l, unsanitised) == ParentGetResource(l.parent, unsanitised)
  {
  }

  /** The element path of `getResource` falls through to the parent when no
      element admits the name (for a trailing-slash lookup: holds it as a
      directory), whatever the other elements hold. */
  lemma GetResourceElementFallback(l: Loader, unsanitised: string)
    requires !ClaimsRootedName(l.elements)
    requires !Provided(l.bannedElements, SanitizeName(unsanitised))
    requires !EndsWith(SanitizeName(unsanitised), CLASS_SUFFIX) || EndsWith(unsanitised, "/")
    requires forall j :: 0 <= j < |l.elements| ==> !Admits(l.elements[j], SanitizeName(unsanitised), EndsWith(unsanitised, "/"))
    ensures GetResource(l, unsanitised) == ParentGetResource(l.parent, unsanitised)
  {
    assert FirstAdmitting(l.elements, SanitizeName(unsanitised), EndsWith(unsanitised, "/")) == |l.elements|;
  }

  /** The element path of `getResourceAsStream` falls through to the parent
      when no element holds the name. */
  lemma GetResourceAsStreamElementFallback(l: Loader, unsanitised: string)
    requires !ClaimsRootedName(l.elements)
    requires !Provided(l.bannedElements, SanitizeName(unsanitised))
    requires !EndsWith(SanitizeName(unsanitised), CLASS_SUFFIX)
    requires forall j :: 0 <= j < |l.elements| ==> Fetch(l.elements[j], SanitizeName(unsanitised)).None?
    ensures GetResourceAsStream(l, unsanitised) == ParentGetResourceAsStream(l.parent, unsanitised)
  {
    var name := SanitizeName(unsanitised);
    assert forall j :: 0 <= j < |l.elements| ==> !Admits(l.elements[j], name, false);
    assert FirstAdmitting(l.elements, name, false) == |l.elements|;
  }

  /** The element path of `getResourceAsStream`: the first element holding
      the name answers, a directory with a stream on its URL and anything
      else with its bytes; a trailing '/' does not restrict it to
      directories. */
  lemma GetResourceAsStreamFirstElement(l: Loader, unsanitised: string, i: nat)
    requires !ClaimsRootedName(l.elements)
    requires !Provided(l.bannedElements, SanitizeName(unsanitised))
    requires !EndsWith(SanitizeName(unsanitised), CLASS_SUFFIX)
    requires i < |l.elements| && Fetch(l.elements[i], SanitizeName(unsanitised)).Some?
    requires forall j :: 0 <= j < i ==> Fetch(l.elements[j], SanitizeName(unsanitised)).None?
    ensures var res := Fetch(l.elements[i], SanitizeName(unsanitised)).value;
            GetResourceAsStream(l, unsanitised) == Found(if res.isDirectory then UrlStream(res.url) else Bytes(res.data))
  {
    var name := SanitizeName(unsanitised);
    var k := FirstAdmitting(l.elements, name, false);
    assert forall j :: 0 <= j < i ==> !Admits(l.elements[j], name, false);
    assert Admits(l.elements[i], name, false);
  }
}
