/** The resolution state (`ClassLoaderState`) and the builder `getState` runs
    the first time it is needed after construction or a reset. */
module ResolutionState {
  import opened Wrappers
  import opened Names
  import opened Elements
  import opened Loaders

  /** `loadable` maps a resource name to its ordered candidate elements (the
      first one wins a single lookup); `banned` and `parentFirst` are the
      names claimed by the banned and the parent-first elements. */
  datatype State = State(loadable: map<string, seq<Element>>, banned: set<string>, parentFirst: set<string>)

  /** Some element of `els` claims `name`. */
  predicate Provided(els: seq<Element>, name: string) {
    exists i :: 0 <= i < |els| && name in els[i].provided
  }

  /** Some element of `els` claims a name that starts with '/'. */
  predicate ClaimsRootedName(els: seq<Element>) {
    exists i :: 0 <= i < |els| && exists n :: n in els[i].provided && StartsWith(n, "/")
  }

  /** The transformed-classes element holds `name`. */
  predicate Transforms(t: Element, name: string) {
    Fetch(t, name).Some?
  }

  /** Reference definition: the elements of `els` that claim `name`, in order. */
  function ProvidersOf(els: seq<Element>, name: string): seq<Element> {
    if els == [] then []
    else ProvidersOf(els[..|els| - 1], name) + (if name in els[|els| - 1].provided then [els[|els| - 1]] else [])
  }

  /** The elements of `s` whose membership in `lesser` is `inLesser`, in order. */
  function Group(s: seq<Element>, lesser: seq<Element>, inLesser: bool): seq<Element> {
    if s == [] then [] else (if (s[0] in lesser) == inLesser then [s[0]] else []) + Group(s[1..], lesser, inLesser)
  }

  /** One step of the first loop of `getState`: every name `e` claims either
      gets the transformed element as its sole candidate or gets `e` appended
      to its candidates. A name starting with '/' is rejected. */
  function AddElement(m: map<string, seq<Element>>, e: Element, t: Element): Result<map<string, seq<Element>>, Fault> {
    if exists n :: n in e.provided && StartsWith(n, "/") then Failure(InvalidResourceName)
    else Success(map n | n in m.Keys + e.provided ::
                   if n !in e.provided then m[n]
                   else if Transforms(t, n) then [t]
                   else (if n in m then m[n] else []) + [e])
  }

  /** The first loop of `getState` over the elements, in list order. */
  function CollectCandidates(els: seq<Element>, t: Element): (r: Result<map<string, seq<Element>>, Fault>)
    ensures r.Failure? <==> ClaimsRootedName(els)
    ensures r.Failure? ==> r.error == InvalidResourceName
    ensures r.Success? ==> CandidatesOf(r.value, els, t)
    decreases |els|
  {
    if els == [] then Success(map[])
    else
      var init := els[..|els| - 1];
      var e := els[|els| - 1];
      match CollectCandidates(init, t)
      case Failure(f) =>
        assert ClaimsRootedName(els) by {
          var i, n :| 0 <= i < |init| && n in init[i].provided && StartsWith(n, "/");
          assert els[i] == init[i];
        }
        Failure(f)
      case Success(m) =>
        CollectStep(init, e, t, m);
        assert els == init + [e];
        AddElement(m, e, t)
  }

  /** What the candidate map holds once the elements `els` are processed. */
  ghost predicate CandidatesOf(m: map<string, seq<Element>>, els: seq<Element>, t: Element) {
    && (forall n :: n in m <==> Provided(els, n))
    && (forall n :: n in m ==> m[n] == if Transforms(t, n) then [t] else ProvidersOf(els, n))
  }

  lemma CollectStep(init: seq<Element>, e: Element, t: Element, m: map<string, seq<Element>>)
    requires !ClaimsRootedName(init)
    requires CandidatesOf(m, init, t)
    ensures AddElement(m, e, t).Failure? <==> ClaimsRootedName(init + [e])
    ensures AddElement(m, e, t).Failure? ==> AddElement(m, e, t).error == InvalidResourceName
    ensures AddElement(m, e, t).Success? ==> CandidatesOf(AddElement(m, e, t).value, init + [e], t)
  {
    var els := init + [e];
    RootedNameStep(init, e);
    if AddElement(m, e, t).Success? {
      var r := AddElement(m, e, t).value;
      ProvidedStep(init, e);
      forall n | n in r && !Transforms(t, n)
        ensures r[n] == ProvidersOf(els, n)
      {
        ProvidersOfStep(init, e, n);
        if n !in m {
          ProvidersOfEmpty(init, n);
        }
      }
    }
  }

  lemma RootedNameStep(init: seq<Element>, e: Element)
    ensures ClaimsRootedName(init + [e]) <==>
              ClaimsRootedName(init) || exists n :: n in e.provided && StartsWith(n, "/")
  {
    var els := init + [e];
    assert forall i :: 0 <= i < |init| ==> els[i] == init[i];
    assert els[|init|] == e;
  }

  lemma ProvidedStep(init: seq<Element>, e: Element)
    ensures forall n :: Provided(init + [e], n) <==> Provided(init, n) || n in e.provided
  {
    var els := init + [e];
    assert forall i :: 0 <= i < |init| ==> els[i] == init[i];
    assert els[|init|] == e;
  }

  lemma ProvidersOfStep(init: seq<Element>, e: Element, n: string)
    ensures ProvidersOf(init + [e], n) == ProvidersOf(init, n) + (if n in e.provided then [e] else [])
  {
    assert (init + [e])[..|init|] == init;
  }

  lemma {:induction false} ProvidersOfEmpty(els: seq<Element>, n: string)
    requires !Provided(els, n)
    ensures ProvidersOf(els, n) == []
    decreases |els|
  {
    if els != [] {
      var init := els[..|els| - 1];
      forall i | 0 <= i < |init|
        ensures n !in init[i].provided
      {
        assert init[i] == els[i];
      }
      ProvidersOfEmpty(init, n);
      assert n !in els[|els| - 1].provided;
    }
  }

  /** The stable partition `getState` applies when there are lesser-priority
      elements and a name has several candidates: the other candidates, then
      the lesser-priority ones. */
  function Prioritise(cands: seq<Element>, lesser: seq<Element>): (r: seq<Element>)
    ensures multiset(r) == multiset(cands) && |r| == |cands|
    ensures |lesser| == 0 || |cands| <= 1 ==> r == cands
  {
    if |lesser| > 0 && |cands| > 1 then
      GroupSplits(cands, lesser);
      assert |multiset(Group(cands, lesser, false) + Group(cands, lesser, true))| == |multiset(cands)|;
      Group(cands, lesser, false) + Group(cands, lesser, true)
    else cands
  }

  /** Within `Prioritise`'s result, no lesser-priority element comes before
      another element, and each group keeps its relative order. */
  lemma PrioritiseOrder(cands: seq<Element>, lesser: seq<Element>)
    ensures forall i, j :: 0 <= i < j < |Prioritise(cands, lesser)| && Prioritise(cands, lesser)[i] in lesser ==>
              Prioritise(cands, lesser)[j] in lesser
    ensures Group(Prioritise(cands, lesser), lesser, false) == Group(cands, lesser, false)
    ensures Group(Prioritise(cands, lesser), lesser, true) == Group(cands, lesser, true)
  {
    var r := Prioritise(cands, lesser);
    if |lesser| == 0 {
      assert forall i :: 0 <= i < |r| ==> r[i] !in lesser;
    } else if |cands| > 1 {
      var normal := Group(cands, lesser, false);
      var less := Group(cands, lesser, true);
      assert r == normal + less;
      GroupMembers(cands, lesser, false);
      GroupMembers(cands, lesser, true);
      ConcatOrdered(normal, less, lesser);
      GroupsOfPartition(cands, lesser);
    } else {
      assert r == cands;
      assert |r| <= 1;
    }
  }

  lemma ConcatOrdered(normal: seq<Element>, less: seq<Element>, lesser: seq<Element>)
    requires forall e :: e in normal ==> e !in lesser
    requires forall e :: e in less ==> e in lesser
    ensures forall i, j :: 0 <= i < j < |normal + less| && (normal + less)[i] in lesser ==> (normal + less)[j] in lesser
  {
    var r := normal + less;
    forall k | 0 <= k < |r|
      ensures k < |normal| ==> r[k] !in lesser
      ensures k >= |normal| ==> r[k] in lesser
    {
      if k < |normal| {
        assert r[k] == normal[k];
      } else {
        assert r[k] == less[k - |normal|];
      }
    }
  }

  lemma GroupsOfPartition(cands: seq<Element>, lesser: seq<Element>)
    ensures Group(Group(cands, lesser, false) + Group(cands, lesser, true), lesser, false) == Group(cands, lesser, false)
    ensures Group(Group(cands, lesser, false) + Group(cands, lesser, true), lesser, true) == Group(cands, lesser, true)
  {
    var normal := Group(cands, lesser, false);
    var less := Group(cands, lesser, true);
    GroupOfConcat(normal, less, lesser, false);
    GroupOfConcat(normal, less, lesser, true);
    GroupIdempotent(cands, lesser, false);
    GroupIdempotent(cands, lesser, true);
    GroupOther(cands, lesser, false);
    GroupOther(cands, lesser, true);
  }

  lemma {:induction false} GroupSplits(s: seq<Element>, lesser: seq<Element>)
    ensures multiset(Group(s, lesser, false) + Group(s, lesser, true)) == multiset(s)
  {
    if s != [] {
      GroupSplits(s[1..], lesser);
      assert s == [s[0]] + s[1..];
    }
  }

  lemma {:induction false} GroupMembers(s: seq<Element>, lesser: seq<Element>, inLesser: bool)
    ensures forall e :: e in Group(s, lesser, inLesser) ==> e in s && (e in lesser) == inLesser
  {
    if s != [] {
      GroupMembers(s[1..], lesser, inLesser);
    }
  }

  lemma {:induction false} GroupOfConcat(a: seq<Element>, b: seq<Element>, lesser: seq<Element>, inLesser: bool)
    ensures Group(a + b, lesser, inLesser) == Group(a, lesser, inLesser) + Group(b, lesser, inLesser)
  {
    if a != [] {
      assert (a + b)[1..] == a[1..] + b;
      GroupOfConcat(a[1..], b, lesser, inLesser);
    } else {
      assert a + b == b;
    }
  }

  lemma {:induction false} GroupIdempotent(s: seq<Element>, lesser: seq<Element>, inLesser: bool)
    ensures Group(Group(s, lesser, inLesser), lesser, inLesser) == Group(s, lesser, inLesser)
  {
    if s != [] {
      GroupIdempotent(s[1..], lesser, inLesser);
      var head := if (s[0] in lesser) == inLesser then [s[0]] else [];
      GroupOfConcat(head, Group(s[1..], lesser, inLesser), lesser, inLesser);
    }
  }

  lemma {:induction false} GroupOther(s: seq<Element>, lesser: seq<Element>, inLesser: bool)
    ensures Group(Group(s, lesser, inLesser), lesser, !inLesser) == []
  {
    if s != [] {
      GroupOther(s[1..], lesser, inLesser);
      var head := if (s[0] in lesser) == inLesser then [s[0]] else [];
      GroupOfConcat(head, Group(s[1..], lesser, inLesser), lesser, !inLesser);
    }
  }

  /** The union of the names the elements of `els` claim. */
  function ProvidedNames(els: seq<Element>): (r: set<string>)
    ensures forall n :: n in r <==> Provided(els, n)
    decreases |els|
  {
    if els == [] then {}
    else
      var init := els[..|els| - 1];
      assert forall n :: Provided(els, n) <==> Provided(init, n) || n in els[|els| - 1].provided by {
        forall n | Provided(els, n) ensures Provided(init, n) || n in els[|els| - 1].provided {
          var i :| 0 <= i < |els| && n in els[i].provided;
          if i < |init| { assert n in init[i].provided; }
        }
        forall n | Provided(init, n) ensures Provided(els, n) {
          var i :| 0 <= i < |init| && n in init[i].provided;
          assert n in els[i].provided;
        }
      }
      ProvidedNames(init) + els[|els| - 1].provided
  }

  /** `getState`'s build step. It fails exactly when an element claims a name
      starting with '/'. Otherwise a name has candidates exactly when some
      element claims it; the transformed-classes element is the sole
      candidate of any such name it holds; every other name's candidates are
      its providers in element order, lesser-priority ones moved behind the
      others. Banned and parent-first names are the unions of what the banned
      and the parent-first elements claim. */
  function BuildState(l: Loader): (r: Result<State, Fault>)
    ensures r.Failure? <==> ClaimsRootedName(l.elements)
    ensures r.Failure? ==> r.error == InvalidResourceName
    ensures r.Success? ==> forall n :: n in r.value.loadable <==> Provided(l.elements, n)
    ensures r.Success? ==> forall n :: n in r.value.loadable && Transforms(l.transformed, n) ==>
              r.value.loadable[n] == [l.transformed]
    ensures r.Success? ==> forall n :: n in r.value.loadable && !Transforms(l.transformed, n) ==>
              r.value.loadable[n] == Prioritise(ProvidersOf(l.elements, n), l.lesserPriorityElements)
    ensures r.Success? ==> forall n :: n in r.value.loadable ==> |r.value.loadable[n]| > 0
    ensures r.Success? ==> forall n :: n in r.value.banned <==> Provided(l.bannedElements, n)
    ensures r.Success? ==> forall n :: n in r.value.parentFirst <==> Provided(l.parentFirstElements, n)
  {
    match CollectCandidates(l.elements, l.transformed)
    case Failure(f) => Failure(f)
    case Success(m) =>
      assert forall n :: n in m && !Transforms(l.transformed, n) ==> |ProvidersOf(l.elements, n)| > 0 by {
        forall n | n in m && !Transforms(l.transformed, n) ensures |ProvidersOf(l.elements, n)| > 0 {
          var i :| 0 <= i < |l.elements| && n in l.elements[i].provided;
          ProvidersOfComplete(l.elements, n, i);
        }
      }
      Success(State(PrioritiseAll(m, l.lesserPriorityElements),
                    ProvidedNames(l.bannedElements), ProvidedNames(l.parentFirstElements)))
  }

  /** The second loop of `getState`: `Prioritise` applied to every entry. */
  function PrioritiseAll(m: map<string, seq<Element>>, lesser: seq<Element>): (r: map<string, seq<Element>>)
    ensures r.Keys == m.Keys
    ensures forall n :: n in r ==> r[n] == Prioritise(m[n], lesser) && |r[n]| == |m[n]|
  {
    map n | n in m :: Prioritise(m[n], lesser)
  }

  /** Every element claiming `name` is among `name`'s providers. */
  lemma {:induction false} ProvidersOfComplete(els: seq<Element>, name: string, i: nat)
    requires i < |els| && name in els[i].provided
    ensures els[i] in ProvidersOf(els, name)
    decreases |els|
  {
    if i < |els| - 1 {
      ProvidersOfComplete(els[..|els| - 1], name, i);
    }
  }

  /** The providers of `name` are exactly the elements that claim it, and
      `a` precedes `b` among them when it comes first in the element list. */
  lemma {:induction false} ProvidersOfSound(els: seq<Element>, name: string)
    ensures forall e :: e in ProvidersOf(els, name) ==> e in els && name in e.provided
    decreases |els|
  {
    if els != [] {
      ProvidersOfSound(els[..|els| - 1], name);
    }
  }

  /** The resolution state depends on the element lists and the transformed
      element only: neither the classes defined so far nor the parent matter. */
  lemma StateIgnoresHistory(l: Loader, l': Loader)
    requires l' == l.(defined := l'.defined, parent := l'.parent)
    ensures BuildState(l') == BuildState(l)
  {
    assert l'.elements == l.elements && l'.transformed == l.transformed;
  }

  /** The first element of the list heads the providers of every name it provides. */
  lemma {:induction false} ProvidersOfFirst(els: seq<Element>, n: string)
    requires |els| > 0 && n in els[0].provided
    ensures |ProvidersOf(els, n)| > 0 && ProvidersOf(els, n)[0] == els[0]
    decreases |els|
  {
    if |els| > 1 {
      var init := els[..|els| - 1];
      assert init[0] == els[0];
      ProvidersOfFirst(init, n);
    }
  }

  /** Reordering keeps a normal-priority head in front. */
  lemma PrioritiseKeepsNormalHead(cands: seq<Element>, lesser: seq<Element>)
    requires |cands| > 0 && cands[0] !in lesser
    ensures |Prioritise(cands, lesser)| > 0 && Prioritise(cands, lesser)[0] == cands[0]
  {
    if |lesser| > 0 && |cands| > 1 {
      assert Group(cands, lesser, false)[0] == cands[0];
    }
  }
}
