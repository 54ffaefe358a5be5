/** Multi-resource aggregation (`getResources`) and the enumeration helpers
    `getElementsWithResource` and `getLocalClassNames`. */
module Aggregation {
  import opened Wrappers
  import opened Names
  import opened Elements
  import opened Loaders
  import opened ResolutionState
  import opened Resolution
  import opened Sequences

  /** The URLs an element's resources contribute: all of them, or for a
      trailing-slash lookup the directories only, with '/' appended. */
  function ResourceUrls(rs: seq<Resource>, slash: bool): (r: seq<Url>)
    ensures forall u :: u in r <==> exists k :: 0 <= k < |rs| && (!slash || rs[k].isDirectory) && u == LocalUrl(rs[k], slash)
    ensures slash ==> forall k :: 0 <= k < |r| ==> r[k].DirOf?
  {
    if rs == [] then []
    else
      var rest := ResourceUrls(rs[1..], slash);
      assert forall k :: 0 < k < |rs| ==> rs[k] == rs[1..][k - 1];
      (if !slash || rs[0].isDirectory then [LocalUrl(rs[0], slash)] else []) + rest
  }

  /** The local contributions of `providers` for `name`, in provider order,
      duplicates included. */
  function Contributions(providers: seq<Element>, name: string, slash: bool): (r: seq<Url>)
    ensures forall u :: u in r <==> exists i :: 0 <= i < |providers| && u in ResourceUrls(FetchAll(providers[i], name), slash)
    ensures slash ==> forall k :: 0 <= k < |r| ==> r[k].DirOf?
  {
    if providers == [] then []
    else
      var rest := Contributions(providers[1..], name, slash);
      assert forall i :: 0 < i < |providers| ==> providers[i] == providers[1..][i - 1];
      ResourceUrls(FetchAll(providers[0], name), slash) + rest
  }

  /** The URLs of a list of resources are those of its parts, in order: a
      directory resource, or any resource when no '/' was asked for, gives
      its URL in its place, and any other resource gives nothing. */
  lemma {:induction false} ResourceUrlsAppend(a: seq<Resource>, b: seq<Resource>, slash: bool)
    ensures ResourceUrls(a + b, slash) == ResourceUrls(a, slash) + ResourceUrls(b, slash)
    decreases |a|
  {
    if a != [] {
      assert (a + b)[0] == a[0] && (a + b)[1..] == a[1..] + b;
      ResourceUrlsAppend(a[1..], b, slash);
      var head := if !slash || a[0].isDirectory then [LocalUrl(a[0], slash)] else [];
      assert ResourceUrls(a, slash) == head + ResourceUrls(a[1..], slash);
      assert ResourceUrls(a + b, slash) == head + ResourceUrls(a[1..] + b, slash);
    } else {
      assert a + b == b;
    }
  }

  lemma ResourceUrlsSingle(x: Resource, slash: bool)
    ensures ResourceUrls([x], slash) == if !slash || x.isDirectory then [LocalUrl(x, slash)] else []
  {
    assert [x][1..] == [];
  }

  /** The contributions of a list of providers are those of each provider in
      turn, each giving all its resources for the name in their own order. */
  lemma {:induction false} ContributionsAppend(p: seq<Element>, q: seq<Element>, name: string, slash: bool)
    ensures Contributions(p + q, name, slash) == Contributions(p, name, slash) + Contributions(q, name, slash)
    decreases |p|
  {
    if p != [] {
      assert (p + q)[0] == p[0] && (p + q)[1..] == p[1..] + q;
      ContributionsAppend(p[1..], q, name, slash);
      ContributionsCons(p, name, slash);
      ContributionsCons(p + q, name, slash);
    } else {
      assert p + q == q;
    }
  }

  lemma ContributionsCons(p: seq<Element>, name: string, slash: bool)
    requires p != []
    ensures Contributions(p, name, slash) == ResourceUrls(FetchAll(p[0], name), slash) + Contributions(p[1..], name, slash)
  {
  }

  lemma ContributionsSingle(e: Element, name: string, slash: bool)
    ensures Contributions([e], name, slash) == ResourceUrls(FetchAll(e, name), slash)
  {
    assert [e][1..] == [];
  }

  /** What this loader itself contributes to `getResources`: the candidates'
      resources for a name that has candidates, every element's root
      resources for the empty name otherwise, nothing else. */
  function LocalResources(l: Loader, st: State, unsanitised: string): seq<Url> {
    var name := SanitizeName(unsanitised);
    if name in st.loadable then Contributions(st.loadable[name], name, EndsWith(unsanitised, "/"))
    else if name == "" then Contributions(l.elements, "", false)
    else []
  }

  /** The `META-INF/services/` guard: the descriptor of a service whose class
      this loader defines itself is banned from parent delegation. */
  function ServiceBanned(l: Loader, name: string): Result<bool, Fault> {
    if StartsWith(name, META_INF_SERVICES) then
      match LoadClass(l, name[|META_INF_SERVICES|..])
      case Found(c) => Success(c.Defined? && c.loader == l.id)
      case Missing => Success(false)
      case Failed(f) => Failure(f)
    else Success(false)
  }

  /** `parent.getResources(...)`: a Quarkus parent is told whether the child
      already found resources, the terminal resolver is not. */
  function ParentGetResources(p: Parent, unsanitised: string, childFound: bool): Result<seq<Url>, Fault>
    decreases p, 0
  {
    match p
    case Platform(t) => Success(TerminalResources(t, unsanitised))
    case Delegate(pl) => GetResources(pl, unsanitised, childFound)
  }

  /** `getResources(name, parentAlreadyFoundResources)`. */
  function GetResources(l: Loader, unsanitised: string, parentAlreadyFound: bool): (r: Result<seq<Url>, Fault>)
    decreases l, 1
    ensures ClaimsRootedName(l.elements) ==> r == Failure(InvalidResourceName)
    ensures r.Success? ==> NoDups(r.value)
  {
    var st :- BuildState(l);
    var name := SanitizeName(unsanitised);
    var forced :- ServiceBanned(l, name);
    var banned := name in st.banned || forced;
    var resources := Distinct(LocalResources(l, st, unsanitised));
    if !banned && ((|resources| == 0 && !parentAlreadyFound) || l.aggregateParentResources) then
      var fromParent :- ParentGetResources(l.parent, unsanitised, |resources| > 0);
      Success(AddAll(resources, fromParent))
    else Success(resources)
  }

  /** The local contributions, once the state is known to be valid. */
  function Local(l: Loader, unsanitised: string): seq<Url>
    requires !ClaimsRootedName(l.elements)
  {
    LocalResources(l, BuildState(l).value, unsanitised)
  }

  /** The local contributions always come first, de-duplicated in
      first-occurrence order. */
  lemma GetResourcesLocalFirst(l: Loader, unsanitised: string, parentAlreadyFound: bool)
    requires GetResources(l, unsanitised, parentAlreadyFound).Success?
    ensures !ClaimsRootedName(l.elements)
    ensures var r := GetResources(l, unsanitised, parentAlreadyFound).value;
            var d := Distinct(Local(l, unsanitised));
            |d| <= |r| && r[..|d|] == d
  {
  }

  /** A banned name still yields its local contributions, but the parent is
      never asked. */
  lemma GetResourcesBanned(l: Loader, unsanitised: string, parentAlreadyFound: bool)
    requires !ClaimsRootedName(l.elements)
    requires Provided(l.bannedElements, SanitizeName(unsanitised))
    requires ServiceBanned(l, SanitizeName(unsanitised)).Success?
    ensures GetResources(l, unsanitised, parentAlreadyFound) == Success(Distinct(Local(l, unsanitised)))
  {
  }

  /** A service descriptor whose service class this loader defines is served
      from local contributions only. */
  lemma GetResourcesServiceForceBan(l: Loader, unsanitised: string, parentAlreadyFound: bool)
    requires !ClaimsRootedName(l.elements)
    requires StartsWith(SanitizeName(unsanitised), META_INF_SERVICES)
    requires var c := LoadClass(l, SanitizeName(unsanitised)[|META_INF_SERVICES|..]);
             c.Found? && c.value.Defined? && c.value.loader == l.id
    ensures GetResources(l, unsanitised, parentAlreadyFound) == Success(Distinct(Local(l, unsanitised)))
  {
  }

  /** With distinct identities, the guard fires exactly when the service
      class did not come from the parent: a class some ancestor defined never
      bans the descriptor. */
  lemma ServiceForcedExactlyWhenLocal(l: Loader, name: string)
    requires WellIdentified(l)
    requires StartsWith(name, META_INF_SERVICES)
    requires LoadClass(l, name[|META_INF_SERVICES|..]).Found?
    ensures ServiceBanned(l, name) == Success(true) <==>
              LoadClass(l, name[|META_INF_SERVICES|..]) != ParentLoadClass(l.parent, name[|META_INF_SERVICES|..])
  {
    var service := name[|META_INF_SERVICES|..];
    var c := LoadClass(l, service).value;
    ParentClassIsForeign(l, service);
    if !(c.Defined? && c.loader == l.id) {
      ForeignClassFromParent(l, service);
    }
  }

  /** Without aggregation, local results keep the parent out. */
  lemma GetResourcesLocalSuffices(l: Loader, unsanitised: string, parentAlreadyFound: bool)
    requires !ClaimsRootedName(l.elements)
    requires !l.aggregateParentResources
    requires |Local(l, unsanitised)| > 0
    requires ServiceBanned(l, SanitizeName(unsanitised)).Success?
    ensures GetResources(l, unsanitised, parentAlreadyFound) == Success(Distinct(Local(l, unsanitised)))
  {
    var x := Local(l, unsanitised)[0];
    assert x in Distinct(Local(l, unsanitised));
  }

  /** Without aggregation and without local results, a child whose parent
      already found resources is not asked again and contributes nothing. */
  lemma GetResourcesAlreadyFound(l: Loader, unsanitised: string)
    requires !ClaimsRootedName(l.elements)
    requires !l.aggregateParentResources
    requires |Local(l, unsanitised)| == 0
    requires ServiceBanned(l, SanitizeName(unsanitised)).Success?
    ensures GetResources(l, unsanitised, true) == Success([])
  {
    assert Local(l, unsanitised) == [];
  }

  /** A name that is not banned and has no local results is answered by the
      parent alone, told that the child found nothing. */
  lemma GetResourcesFallsBackToParent(l: Loader, unsanitised: string)
    requires !ClaimsRootedName(l.elements)
    requires !Provided(l.bannedElements, SanitizeName(unsanitised))
    requires ServiceBanned(l, SanitizeName(unsanitised)) == Success(false)
    requires |Local(l, unsanitised)| == 0
    requires ParentGetResources(l.parent, unsanitised, false).Success?
    ensures GetResources(l, unsanitised, false) == Success(AddAll([], ParentGetResources(l.parent, unsanitised, false).value))
  {
    assert Local(l, unsanitised) == [];
  }

  /** With aggregation, the result is the local resources followed by the
      parent's (those not already there), the parent told whether the child
      found any. */
  lemma GetResourcesAggregates(l: Loader, unsanitised: string, parentAlreadyFound: bool)
    requires !ClaimsRootedName(l.elements)
    requires l.aggregateParentResources
    requires !Provided(l.bannedElements, SanitizeName(unsanitised))
    requires ServiceBanned(l, SanitizeName(unsanitised)) == Success(false)
    requires ParentGetResources(l.parent, unsanitised, |Local(l, unsanitised)| > 0).Success?
    ensures GetResources(l, unsanitised, parentAlreadyFound).Success?
    // the local URLs first, then the parent's new ones in the parent's order
    ensures GetResources(l, unsanitised, parentAlreadyFound) ==
              Success(AddAll(Distinct(Local(l, unsanitised)), ParentGetResources(l.parent, unsanitised, |Local(l, unsanitised)| > 0).value))
    ensures forall u :: u in GetResources(l, unsanitised, parentAlreadyFound).value <==>
              u in Local(l, unsanitised) || u in ParentGetResources(l.parent, unsanitised, |Local(l, unsanitised)| > 0).value
  {
    var local := Local(l, unsanitised);
    assert |Distinct(local)| > 0 <==> |local| > 0 by {
      if |local| > 0 { assert local[0] in Distinct(local); }
      if |Distinct(local)| > 0 { assert Distinct(local)[0] in local; }
    }
    var st := BuildState(l).value;
    assert SanitizeName(unsanitised) !in st.banned;
    var fromParent := ParentGetResources(l.parent, unsanitised, |local| > 0).value;
    assert GetResources(l, unsanitised, parentAlreadyFound) == Success(AddAll(Distinct(local), fromParent));
  }

  /** A trailing-slash lookup of a non-empty name contributes only directory URLs. */
  lemma GetResourcesTrailingSlash(l: Loader, unsanitised: string)
    requires !ClaimsRootedName(l.elements)
    requires EndsWith(unsanitised, "/") && SanitizeName(unsanitised) != ""
    ensures forall u :: u in Local(l, unsanitised) ==> u.DirOf?
  {
  }

  /** The empty name (when nothing claims it) enumerates the root resources of
      every element, whatever the trailing slash. */
  lemma GetResourcesRoot(l: Loader, unsanitised: string)
    requires !ClaimsRootedName(l.elements)
    requires SanitizeName(unsanitised) == "" && !Provided(l.elements, "")
    ensures forall u :: u in Local(l, unsanitised) <==>
              exists i :: 0 <= i < |l.elements| && u in ResourceUrls(FetchAll(l.elements[i], ""), false)
  {
  }

  /** This loader's own candidates for `name`, if any. */
  function OwnCandidates(st: State, name: string): seq<Element> {
    if name in st.loadable then st.loadable[name] else []
  }

  /** `getElementsWithResource(name, localOnly)`: the candidates of every
      Quarkus ancestor, outermost first (unless `localOnly`), then this
      loader's own. */
  function ElementsWithResource(l: Loader, name: string, localOnly: bool): (r: Result<seq<Element>, Fault>)
    decreases l
    ensures r.Success? ==> forall e :: e in r.value ==> name in e.provided || Fetch(e, name).Some?
    ensures ClaimsRootedName(l.elements) ==> r.Failure?
  {
    var inherited :=
      if l.parent.Delegate? && !localOnly then ElementsWithResource(l.parent.loader, name, false)
      else Success([]);
    if inherited.Failure? then inherited
    else
      match BuildState(l)
      case Failure(f) => Failure(f)
      case Success(st) =>
        OwnCandidatesClaim(l, st, name);
        Success(inherited.value + OwnCandidates(st, name))
  }

  lemma OwnCandidatesClaim(l: Loader, st: State, name: string)
    requires BuildState(l) == Success(st)
    ensures forall e :: e in OwnCandidates(st, name) ==> name in e.provided || Fetch(e, name).Some?
  {
    if name in st.loadable && !Transforms(l.transformed, name) {
      ProvidersOfSound(l.elements, name);
      var own := OwnCandidates(st, name);
      assert forall e :: e in own ==> e in multiset(own);
      assert multiset(own) == multiset(ProvidersOf(l.elements, name));
    }
  }

  /** With `localOnly`, exactly this loader's candidates for the name. */
  lemma ElementsWithResourceLocal(l: Loader, name: string)
    requires !ClaimsRootedName(l.elements)
    ensures !Provided(l.elements, name) ==> ElementsWithResource(l, name, true) == Success([])
    ensures Provided(l.elements, name) && Transforms(l.transformed, name) ==>
              ElementsWithResource(l, name, true) == Success([l.transformed])
    ensures Provided(l.elements, name) && !Transforms(l.transformed, name) ==>
              ElementsWithResource(l, name, true) ==
                Success(Prioritise(ProvidersOf(l.elements, name), l.lesserPriorityElements))
  {
    LocalElementsAreOwn(l, name);
  }

  /** With `localOnly`, the answer is this loader's own candidates. */
  lemma LocalElementsAreOwn(l: Loader, name: string)
    requires !ClaimsRootedName(l.elements)
    ensures ElementsWithResource(l, name, true) == Success(OwnCandidates(BuildState(l).value, name))
  {
    var own := OwnCandidates(BuildState(l).value, name);
    assert ElementsWithResource(l, name, true) == Success([] + own);
    assert [] + own == own;
  }

  /** Under a Quarkus parent the full answer is the parent's full answer
      followed by this loader's local answer; it fails when either does. */
  lemma ElementsWithResourceInherits(l: Loader, name: string)
    requires l.parent.Delegate?
    ensures ElementsWithResource(l, name, false).Success? <==>
              ElementsWithResource(l.parent.loader, name, false).Success? &&
              ElementsWithResource(l, name, true).Success?
    ensures ElementsWithResource(l, name, false).Success? ==>
              ElementsWithResource(l, name, false).value ==
                ElementsWithResource(l.parent.loader, name, false).value + ElementsWithResource(l, name, true).value
  {
    var own := ElementsWithResource(l, name, true);
    if own.Success? {
      var st := BuildState(l).value;
      assert own.value == [] + OwnCandidates(st, name);
    }
  }

  /** The class name `getLocalClassNames` lists for a resource name, if any. */
  function ClassNameOf(k: string): Option<string> {
    if EndsWith(k, CLASS_SUFFIX) then Some(ResourceToClassName(k)) else None
  }

  /** The names among `keys` that list the class name `c`. */
  function ClassKeysFor(keys: set<string>, c: string): set<string> {
    set k | k in keys && ClassNameOf(k) == Some(c)
  }

  /** The list after visiting the name `k`: its class name is added when it
      is a `.class` name. */
  function AddClassName(names: multiset<string>, k: string): multiset<string> {
    match ClassNameOf(k)
    case Some(c) => names + multiset{c}
    case None => names
  }

  /** Visiting one more name keeps the count of every class name exact. */
  lemma CountStep(names: multiset<string>, done: set<string>, k: string)
    requires k !in done
    requires forall c :: names[c] == |ClassKeysFor(done, c)|
    ensures forall c :: AddClassName(names, k)[c] == |ClassKeysFor(done + {k}, c)|
  {
    forall c
      ensures AddClassName(names, k)[c] == |ClassKeysFor(done + {k}, c)|
    {
      if ClassNameOf(k) == Some(c) {
        assert ClassKeysFor(done + {k}, c) == ClassKeysFor(done, c) + {k};
      } else {
        assert ClassKeysFor(done + {k}, c) == ClassKeysFor(done, c);
      }
    }
  }

  /** The loop step of `LocalClassNames`, phrased on the names still to visit. */
  lemma VisitStep(names: multiset<string>, keys: set<string>, remaining: set<string>, k: string)
    requires remaining <= keys && k in remaining
    requires forall c :: names[c] == |ClassKeysFor(keys - remaining, c)|
    ensures forall c :: AddClassName(names, k)[c] == |ClassKeysFor(keys - (remaining - {k}), c)|
  {
    assert keys - (remaining - {k}) == (keys - remaining) + {k};
    CountStep(names, keys - remaining, k);
  }

  /** The names that have candidates in the state: the provided names. */
  function LoadableNames(l: Loader): (r: Result<set<string>, Fault>)
    ensures r.Failure? <==> ClaimsRootedName(l.elements)
    ensures r.Success? ==> r.value == ProvidedNames(l.elements)
  {
    var st :- BuildState(l);
    Success(st.loadable.Keys)
  }

  /** `getLocalClassNames`: one class name per `.class` name with candidates,
      in no particular order. Two resource names can give the same class
      name, which is then listed once for each. */
  method LocalClassNames(l: Loader) returns (r: Result<multiset<string>, Fault>)
    ensures r.Failure? <==> ClaimsRootedName(l.elements)
    ensures r.Success? ==> forall c :: r.value[c] == |ClassKeysFor(ProvidedNames(l.elements), c)|
  {
    var loadable := LoadableNames(l);
    if loadable.Failure? {
      return Failure(loadable.error);
    }
    var keys := loadable.value;
    var remaining := keys;
    var names: multiset<string> := multiset{};
    while remaining != {}
      invariant remaining <= keys
      invariant forall c :: names[c] == |ClassKeysFor(keys - remaining, c)|
      decreases |remaining|
    {
      var k :| k in remaining;
      VisitStep(names, keys, remaining, k);
      names := AddClassName(names, k);
      remaining := remaining - {k};
    }
    assert keys - remaining == keys;
    return Success(names);
  }

  /** `a/B.class` and `a.B.class` both list the class name `a.B`. */
  lemma ClassNameCollision(keys: set<string>)
    requires "a/B.class" in keys && "a.B.class" in keys
    ensures |ClassKeysFor(keys, "a.B")| >= 2
  {
    assert ResourceToClassName("a/B.class") == "a.B";
    assert ResourceToClassName("a.B.class") == "a.B";
    var both := ClassKeysFor(keys, "a.B");
    assert "a/B.class"[1] != "a.B.class"[1];
    assert "a/B.class" in both && "a.B.class" in both;
    assert "a.B.class" in both - {"a/B.class"};
    assert |both - {"a/B.class"}| == |both| - 1;
  }

  /** Each local class name whose resource stem holds no '.' leads `loadClass`
      back to the very resource it came from. */
  lemma LocalClassNamesLoadable(l: Loader, k: string)
    requires Provided(l.elements, k) && EndsWith(k, CLASS_SUFFIX)
    requires forall i :: 0 <= i < |k| - |CLASS_SUFFIX| ==> k[i] != '.'
    ensures |ClassKeysFor(ProvidedNames(l.elements), ResourceToClassName(k))| >= 1
    ensures ClassToResourceName(ResourceToClassName(k)) == k
  {
    assert k in ProvidedNames(l.elements);
    assert {k} <= ClassKeysFor(ProvidedNames(l.elements), ResourceToClassName(k));
    ResourceNameRoundTrip(k);
  }

  /** This loader's own service check defines the service class itself. */
  predicate DefinesService(l: Loader, name: string) {
    && StartsWith(name, META_INF_SERVICES)
    && var c := LoadClass(l, name[|META_INF_SERVICES|..]);
       c.Found? && c.value.Defined? && c.value.loader == l.id
  }

  /** The loaders after this loader's own service check: the service class
      it loads is recorded with the loader that defined it. */
  function RecordOwnService(l: Loader, name: string): (r: Loader)
    ensures r == l.(defined := r.defined, parent := r.parent)
    ensures ChainIds(r.parent) == ChainIds(l.parent) && Depth(r) == Depth(l)
    ensures WellIdentified(l) ==> WellIdentified(r)
    ensures DefinesService(l, name) ==>
              var service := name[|META_INF_SERVICES|..];
              r.defined == l.defined[service := LoadClass(l, service).value]
    ensures !DefinesService(l, name) ==> r.defined == l.defined
    ensures SameButDefined(l, r)
    // the loader that defined the service class remembers it, wherever it is in the chain
    ensures StartsWith(name, META_INF_SERVICES) && LoadClass(l, name[|META_INF_SERVICES|..]).Found? ==>
              var c := LoadClass(l, name[|META_INF_SERVICES|..]).value;
              && (c.Defined? && (c.loader == l.id || c.loader in ChainIds(l.parent)) ==>
                    DefinedAt(r, c.loader) == DefinedAt(l, c.loader)[name[|META_INF_SERVICES|..] := c])
              && (forall id :: !(c.Defined? && id == c.loader) ==> DefinedAt(r, id) == DefinedAt(l, id))
  {
    SameButDefinedReflexive(l);
    if StartsWith(name, META_INF_SERVICES) && LoadClass(l, name[|META_INF_SERVICES|..]).Found? then
      Record(l, name[|META_INF_SERVICES|..], LoadClass(l, name[|META_INF_SERVICES|..]).value)
    else l
  }

  /** `getResources` goes on to ask its parent. */
  predicate AsksParent(l: Loader, st: State, unsanitised: string, parentAlreadyFound: bool) {
    var name := SanitizeName(unsanitised);
    match ServiceBanned(l, name)
    case Failure(_) => false
    case Success(forced) =>
      var resources := Distinct(LocalResources(l, st, unsanitised));
      !(name in st.banned || forced) && ((|resources| == 0 && !parentAlreadyFound) || l.aggregateParentResources)
  }

  /** The loaders after `getResources(name, parentAlreadyFound)`: the class
      the service check loads is recorded with the loader that defined it,
      and so is the class each Quarkus parent's own check loads when the
      lookup is delegated to it. */
  function RecordServiceLoads(l: Loader, unsanitised: string, parentAlreadyFound: bool): (r: Loader)
    decreases Depth(l)
    ensures r == l.(defined := r.defined, parent := r.parent)
    ensures ChainIds(r.parent) == ChainIds(l.parent) && Depth(r) == Depth(l)
    ensures WellIdentified(l) ==> WellIdentified(r)
    ensures !ClaimsRootedName(l.elements) && DefinesService(l, SanitizeName(unsanitised)) ==>
              var service := SanitizeName(unsanitised)[|META_INF_SERVICES|..];
              r.defined == l.defined[service := LoadClass(l, service).value]
    ensures !DefinesService(l, SanitizeName(unsanitised)) ==> r.defined == l.defined
    ensures SameButDefined(l, r)
    // a lookup that fails on the state loads nothing
    ensures BuildState(l).Failure? ==> r == l
  {
    match BuildState(l)
    case Failure(_) =>
      SameButDefinedReflexive(l);
      l
    case Success(st) =>
      var l1 := RecordOwnService(l, SanitizeName(unsanitised));
      if AsksParent(l, st, unsanitised, parentAlreadyFound) && l1.parent.Delegate? then
        var found := |Distinct(LocalResources(l, st, unsanitised))| > 0;
        var pl := RecordServiceLoads(l1.parent.loader, unsanitised, found);
        var r := l1.(parent := Delegate(pl));
        SameButDefinedTransitive(l.parent.loader, l1.parent.loader, pl);
        r
      else l1
  }

  /** One level up: a lookup that reaches a Quarkus parent makes it record its
      own service class, after this loader's check has recorded whatever it
      loaded; a lookup that stays here leaves the parents as that check left
      them. */
  lemma RecordServiceLoadsParent(l: Loader, unsanitised: string, parentAlreadyFound: bool)
    requires BuildState(l).Success?
    ensures AsksParent(l, BuildState(l).value, unsanitised, parentAlreadyFound) && l.parent.Delegate? ==>
              var r := RecordServiceLoads(l, unsanitised, parentAlreadyFound);
              var pl := RecordOwnService(l, SanitizeName(unsanitised)).parent.loader;
              var name := SanitizeName(unsanitised);
              && r.parent.Delegate?
              // the parent's own lookup, told whether this loader found anything,
              // so the same holds again one level further up
              && r.parent.loader == RecordServiceLoads(pl, unsanitised, |Distinct(LocalResources(l, BuildState(l).value, unsanitised))| > 0)
              && (!ClaimsRootedName(pl.elements) && DefinesService(pl, name) ==>
                    r.parent.loader.defined ==
                      pl.defined[name[|META_INF_SERVICES|..] := LoadClass(pl, name[|META_INF_SERVICES|..]).value])
              && (!DefinesService(pl, name) ==> r.parent.loader.defined == pl.defined)
    ensures !AsksParent(l, BuildState(l).value, unsanitised, parentAlreadyFound) ==>
              RecordServiceLoads(l, unsanitised, parentAlreadyFound).parent == RecordOwnService(l, SanitizeName(unsanitised)).parent
  {
  }
}
