# QuarkusClassLoader resolution core in Dafny

This project models the decisions Quarkus's `QuarkusClassLoader` makes when it resolves
classes and resources. The loader owns an ordered list of class-path elements. It also has:

- *banned* elements, whose resources it refuses to serve;
- *parent-first* elements, whose resources it asks the parent for first;
- *lesser-priority* elements, which lose ties with the other elements;
- an in-memory element of *transformed classes*, which overrides every other provider of a name;
- optionally a *resettable* element, which holds generated resources.

The first lookup builds a *state* and caches it. The state holds:

- the candidate map: resource name to providing elements;
- the banned set;
- the parent-first set.

Every lookup is answered from that state, from the elements, and from the parent.

The model is functional. A loader is an immutable `Loader` value. Its parent is either a
terminal (platform) loader or another `Loader`. A class loader's mutable fields (the cached
state, the status, the close tasks) live in a `Lifecycle.Instance` value. Each mutating
operation returns a new `Instance`.

| file | module | contents |
|---|---|---|
| wrappers.dfy | Wrappers | `Option` and `Result` |
| names.dfy | Names | name sanitising, class/resource name conversion, package names |
| sequences.dfy | Sequences | insertion-ordered sets (the `LinkedHashSet` of `getResources`) |
| elements.dfy | Elements | class-path elements, resources, URLs, the in-memory element |
| loaders.dfy | Loaders | the loader record, the terminal parent, outcomes and faults, `Builder.build` |
| state.dfy | ResolutionState | `getState`: candidate map, transformed override, lesser-priority partition, banned and parent-first sets |
| resolution.dfy | Resolution | `isParentFirst`, `loadClass`, `getResource`, `getResourceAsStream` |
| aggregation.dfy | Aggregation | `getResources`, `getElementsWithResource`, `getLocalClassNames` |
| lifecycle.dfy | Lifecycle | state caching, `reset`, `addCloseTask`, `close`, `isClosed`, class definition recording |

Java's exceptions become values:

- `ClassNotFoundException` and a `null` answer become `Missing`.
- The `RuntimeException` raised for a provided name starting with `/` becomes `Failed(InvalidResourceName)`.
- The `IllegalStateException` raised when a candidate fails to deliver a `.class` resource becomes `Failed(ProviderFailed(..))`.
- The `IllegalStateException` raised by `reset` on a loader without a resettable element becomes `Failure(NotResettable)`.

A `Class` defined by a loader is `Defined(loader id, class name, element id, bytes)`. The
loader's `id` stands for its object identity, which `c.getClassLoader() == this` compares.
The guarantees about "this loader" hold for chains whose loaders have distinct ids
(`WellIdentified`).

A class-path element is its id, the names it *provides*, and the resources it can fetch per
name. The two are independent, because a closed element can still list a name it no longer
fetches. The in-memory element, the element id of the
transformed classes and the generated resources are parameters.

Behaviour of the code worth noting:

- `reset` checks only that a resettable element exists. It does not check the open/closing/closed status.
- `loadClass` silently falls through when the first candidate fetches nothing. `getResource` and `getResourceAsStream` raise an error in that case for `.class` names.
- `loadClass` does not sanitise its name.
- The root (`""`) enumeration of `getResources` happens only when `""` has no candidates in the state.
- The non-`.class` path of `getResource`/`getResourceAsStream` walks `elements` in order. It ignores the transformed element and the lesser-priority ordering.

## Model

| member | source | states |
|---|---|---|
| Names.SanitizeName | independent-projects/bootstrap/core/src/main/java/io/quarkus/bootstrap/classloading/QuarkusClassLoader.java:173-181 | the result is the name with at most one leading and at most one trailing '/' removed, and nothing else changed; a trailing '/' left after the leading one is dropped is always removed; a name with neither is returned as is |
| Names.SanitizeIgnoresLeadingSlash | independent-projects/bootstrap/core/src/main/java/io/quarkus/bootstrap/classloading/QuarkusClassLoader.java:173-176 | a name and the same name with one '/' in front sanitise to the same thing (when the name does not itself begin with '/') |
| Names.SanitizeIgnoresTrailingSlash | independent-projects/bootstrap/core/src/main/java/io/quarkus/bootstrap/classloading/QuarkusClassLoader.java:177-179 | a name and the same name with one '/' appended sanitise to the same thing (when the name does not itself end with '/') |
| Names.SanitizeStripsSingleSlashes | independent-projects/bootstrap/core/src/main/java/io/quarkus/bootstrap/classloading/QuarkusClassLoader.java:173-181 | for a name that neither starts nor ends with '//', the sanitised name neither starts nor ends with '/' |
| Names.ClassToResourceName | independent-projects/bootstrap/core/src/main/java/io/quarkus/bootstrap/classloading/QuarkusClassLoader.java:532 | each '.' of the class name becomes '/', every other character is kept in place, and ".class" is appended |
| Names.ResourceToClassName | independent-projects/bootstrap/core/src/main/java/io/quarkus/bootstrap/classloading/QuarkusClassLoader.java:639 | the result is the resource name without its 6-character suffix, with each '/' turned into '.' and every other character kept in place |
| Names.ClassNameRoundTrip | independent-projects/bootstrap/core/src/main/java/io/quarkus/bootstrap/classloading/QuarkusClassLoader.java:636-641 | turning a class name without '/' into its resource name and back gives the class name again |
| Names.ResourceNameRoundTrip | independent-projects/bootstrap/core/src/main/java/io/quarkus/bootstrap/classloading/QuarkusClassLoader.java:636-641 | turning a ".class" resource name without '.' in its stem into a class name and back gives the resource name again |
| Names.LastIndexOf | independent-projects/bootstrap/core/src/main/java/io/quarkus/bootstrap/classloading/QuarkusClassLoader.java:601 | the result is -1 when the character is absent, otherwise an index holding it with no occurrence after it |
| Names.PackageName | independent-projects/bootstrap/core/src/main/java/io/quarkus/bootstrap/classloading/QuarkusClassLoader.java:600-609 | no package exactly when the class name has no '.'; otherwise the package is the prefix before the last '.' |
| Sequences.AddAll | independent-projects/bootstrap/core/src/main/java/io/quarkus/bootstrap/classloading/QuarkusClassLoader.java:269 | adding to an insertion-ordered set keeps the existing prefix, adds exactly the new members and never introduces duplicates |
| Sequences.AddAllFirstOccurrenceOrder | independent-projects/bootstrap/core/src/main/java/io/quarkus/bootstrap/classloading/QuarkusClassLoader.java:269 | the ordered set lists the new values in the order of their first occurrence |
| Elements.MemoryElement | independent-projects/bootstrap/core/src/main/java/io/quarkus/bootstrap/classloading/QuarkusClassLoader.java:158 | the in-memory element provides exactly its map's keys and fetches each as one non-directory resource holding the mapped bytes |
| Loaders.Build | independent-projects/bootstrap/core/src/main/java/io/quarkus/bootstrap/classloading/QuarkusClassLoader.java:875-883 | a resettable element not already among the elements is put first; one that is already there leaves the list exactly as given; every other element and field is kept |
| Loaders.Record | independent-projects/bootstrap/core/src/main/java/io/quarkus/bootstrap/classloading/QuarkusClassLoader.java:548-556 | a defined class is recorded by the loader whose id it carries, here or up the chain (that loader's remembered classes gain exactly this one); every other loader of the chain, at every level, is unchanged, and only remembered classes differ; a class no loader of the chain defined changes nothing; distinct ids stay distinct |
| ResolutionState.CollectCandidates | independent-projects/bootstrap/core/src/main/java/io/quarkus/bootstrap/classloading/QuarkusClassLoader.java:324-341 | fails exactly when an element provides a name starting with '/'; otherwise the keys are the provided names, a transformed name maps to the transformed element alone, and any other name maps to its providers in element order |
| ResolutionState.Prioritise | independent-projects/bootstrap/core/src/main/java/io/quarkus/bootstrap/classloading/QuarkusClassLoader.java:342-361 | the providers are reordered but none is lost or added; a single provider or an empty lesser-priority list leaves them unchanged |
| ResolutionState.PrioritiseOrder | independent-projects/bootstrap/core/src/main/java/io/quarkus/bootstrap/classloading/QuarkusClassLoader.java:350-358 | after reordering, every normal-priority provider comes before every lesser-priority one, and each group keeps its relative order |
| ResolutionState.ProvidedNames | independent-projects/bootstrap/core/src/main/java/io/quarkus/bootstrap/classloading/QuarkusClassLoader.java:363-370 | a name is in the union exactly when some element of the list provides it |
| ResolutionState.BuildState | independent-projects/bootstrap/core/src/main/java/io/quarkus/bootstrap/classloading/QuarkusClassLoader.java:318-376 | the state fails exactly on a '/'-rooted provided name; otherwise every provided name has a non-empty candidate list (the transformed element alone, or the reordered providers), and the banned and parent-first sets are exactly the names their elements provide |
| ResolutionState.StateIgnoresHistory | independent-projects/bootstrap/core/src/main/java/io/quarkus/bootstrap/classloading/QuarkusClassLoader.java:318-376 | the state does not depend on defined classes or on the parent |
| Resolution.IsParentFirst | independent-projects/bootstrap/core/src/main/java/io/quarkus/bootstrap/classloading/QuarkusClassLoader.java:186-213 | "java." names are always parent-first; otherwise a name is parent-first exactly when the loader is, or a parent-first element provides its resource name |
| Resolution.LoadClass | independent-projects/bootstrap/core/src/main/java/io/quarkus/bootstrap/classloading/QuarkusClassLoader.java:513-572 | "java." names are answered by the parent alone; for any other name a '/'-rooted provided name makes the lookup fail (the remaining branches are stated by the LoadClass lemmas below) |
| Resolution.LoadClassAlreadyDefined | independent-projects/bootstrap/core/src/main/java/io/quarkus/bootstrap/classloading/QuarkusClassLoader.java:528-531 | a class this loader already defined is returned again, whatever the elements now say |
| Resolution.LoadClassBanned | independent-projects/bootstrap/core/src/main/java/io/quarkus/bootstrap/classloading/QuarkusClassLoader.java:532-535 | a class whose resource is banned is never found, even when the parent has it |
| Resolution.LoadClassParentFirstWins | independent-projects/bootstrap/core/src/main/java/io/quarkus/bootstrap/classloading/QuarkusClassLoader.java:536-543 | for a parent-first class, whatever the parent answers other than not-found is the answer: its class or its failure |
| Resolution.LoadClassNoLocalDefinition | independent-projects/bootstrap/core/src/main/java/io/quarkus/bootstrap/classloading/QuarkusClassLoader.java:559-563 | when the first candidate cannot define the class (or there is none), the answer is the parent's, whether the class is parent-first or not |
| Resolution.LoadClassFromFirstCandidate | independent-projects/bootstrap/core/src/main/java/io/quarkus/bootstrap/classloading/QuarkusClassLoader.java:544-557 | a class that is not parent-first, or that the parent does not have, is defined by this loader from the bytes its first candidate fetches |
| Resolution.LoadClassSoleProvider | independent-projects/bootstrap/core/src/main/java/io/quarkus/bootstrap/classloading/QuarkusClassLoader.java:544-557 | an untransformed class provided and fetched by exactly one element is defined from that element |
| Resolution.LoadClassEarlierProviderWins | independent-projects/bootstrap/core/src/main/java/io/quarkus/bootstrap/classloading/QuarkusClassLoader.java:342-361 | of two normal-priority providers of a class, the earlier in the element list defines it |
| Resolution.LoadClassTransformedWins | independent-projects/bootstrap/core/src/main/java/io/quarkus/bootstrap/classloading/QuarkusClassLoader.java:331-333 | a transformed class is defined from the transformed bytes even when ordinary elements provide it too |
| Resolution.LoadClassDefiner | independent-projects/bootstrap/core/src/main/java/io/quarkus/bootstrap/classloading/QuarkusClassLoader.java:528-561 | with distinct ids along the chain, a class found was defined by this loader or by one of its Quarkus ancestors |
| Resolution.ParentClassIsForeign | independent-projects/bootstrap/core/src/main/java/io/quarkus/bootstrap/classloading/QuarkusClassLoader.java:539 | with distinct ids along the chain, no class the parent returns was defined by this loader |
| Resolution.LoadClassCongruence | independent-projects/bootstrap/core/src/main/java/io/quarkus/bootstrap/classloading/QuarkusClassLoader.java:513-563 | two loaders that differ only in their parent, whose parents answer a name alike, answer it alike |
| Resolution.ForeignClassFromParent | independent-projects/bootstrap/core/src/main/java/io/quarkus/bootstrap/classloading/QuarkusClassLoader.java:539-561 | with distinct ids along the chain, a class found that this loader did not define is the parent's answer |
| Resolution.RecordKeepsAnswer | independent-projects/bootstrap/core/src/main/java/io/quarkus/bootstrap/classloading/QuarkusClassLoader.java:528-531 | recording a found class with the loader that defined it leaves the answer to the same lookup unchanged |
| Resolution.GetResource | independent-projects/bootstrap/core/src/main/java/io/quarkus/bootstrap/classloading/QuarkusClassLoader.java:379-426 | a '/'-rooted provided name makes the lookup fail (the banned, class, element and parent branches are stated by the GetResource lemmas and ClassPathsAgree) |
| Resolution.GetResourceBanned | independent-projects/bootstrap/core/src/main/java/io/quarkus/bootstrap/classloading/QuarkusClassLoader.java:387-389 | a banned name yields nothing and the parent is not asked |
| Resolution.ClassResourceFromFirstCandidate | independent-projects/bootstrap/core/src/main/java/io/quarkus/bootstrap/classloading/QuarkusClassLoader.java:394-403 | for any non-banned ".class" name with candidates, getResourceAsStream gives the first candidate's bytes (even with a trailing '/') and, without a trailing '/', getResource its URL; both fail when that candidate cannot fetch the name |
| Resolution.ClassResourceFromParent | independent-projects/bootstrap/core/src/main/java/io/quarkus/bootstrap/classloading/QuarkusClassLoader.java:394-403 | a non-banned ".class" name no element provides is streamed from the parent, and without a trailing '/' its URL comes from the parent |
| Resolution.ClosedProviderAsymmetry | independent-projects/bootstrap/core/src/main/java/io/quarkus/bootstrap/classloading/QuarkusClassLoader.java:544-558 | when the first candidate of a class cannot fetch it, loading falls through to the parent while getResource reports the failure |
| Resolution.ClassPathsAgree | independent-projects/bootstrap/core/src/main/java/io/quarkus/bootstrap/classloading/QuarkusClassLoader.java:394-403 | for a class defined locally, loadClass, getResource and getResourceAsStream all use the resource of the same first candidate |
| Resolution.GetResourceFirstElement | independent-projects/bootstrap/core/src/main/java/io/quarkus/bootstrap/classloading/QuarkusClassLoader.java:404-423 | on the element path, the answer is the URL of the first element that fetches the name (a directory URL with '/' appended for a trailing-slash lookup) |
| Resolution.GetResourceAsStreamFirstElement | independent-projects/bootstrap/core/src/main/java/io/quarkus/bootstrap/classloading/QuarkusClassLoader.java:451-467 | on the element path, the answer comes from the first element that fetches the name: its bytes, or a stream on its URL for a directory |
| Resolution.GetResourceFromParent | independent-projects/bootstrap/core/src/main/java/io/quarkus/bootstrap/classloading/QuarkusClassLoader.java:425 | a non-banned name that no element provides or fetches is answered by the parent with the unsanitised name, for both the URL and the stream |
| Resolution.GetResourceElementFallback | independent-projects/bootstrap/core/src/main/java/io/quarkus/bootstrap/classloading/QuarkusClassLoader.java:404-425 | on the element path of getResource, when no element admits the name (for a trailing '/': holds it as a directory), the parent answers with the unsanitised name, whatever files the elements hold |
| Resolution.GetResourceAsStreamElementFallback | independent-projects/bootstrap/core/src/main/java/io/quarkus/bootstrap/classloading/QuarkusClassLoader.java:451-468 | on the element path of getResourceAsStream, when no element holds the name, the parent answers with the unsanitised name |
| Resolution.GetResourceAsStream | independent-projects/bootstrap/core/src/main/java/io/quarkus/bootstrap/classloading/QuarkusClassLoader.java:429-468 | a '/'-rooted provided name makes the lookup fail (the banned, class and parent branches are stated by GetResourceBanned, ClassPathsAgree, ClosedProviderAsymmetry, ClassResourceFromFirstCandidate, ClassResourceFromParent, GetResourceAsStreamFirstElement and GetResourceAsStreamElementFallback) |
| Aggregation.ResourceUrls | independent-projects/bootstrap/core/src/main/java/io/quarkus/bootstrap/classloading/QuarkusClassLoader.java:275-290 | the URLs are those of the fetched resources, restricted to directories with a slash appended for a trailing-slash lookup |
| Aggregation.Contributions | independent-projects/bootstrap/core/src/main/java/io/quarkus/bootstrap/classloading/QuarkusClassLoader.java:271-291 | a URL is contributed exactly when some candidate fetches a resource with that URL |
| Aggregation.ResourceUrlsAppend | independent-projects/bootstrap/core/src/main/java/io/quarkus/bootstrap/classloading/QuarkusClassLoader.java:275-290 | the URLs of a list of resources are those of its two halves concatenated, in order |
| Aggregation.ResourceUrlsSingle | independent-projects/bootstrap/core/src/main/java/io/quarkus/bootstrap/classloading/QuarkusClassLoader.java:275-290 | one resource gives its URL (with '/' appended for a trailing-slash lookup) when it is a directory or no '/' was asked for, and nothing otherwise |
| Aggregation.ContributionsAppend | independent-projects/bootstrap/core/src/main/java/io/quarkus/bootstrap/classloading/QuarkusClassLoader.java:271-291 | the contributions of two provider lists are those of the first followed by those of the second |
| Aggregation.ContributionsSingle | independent-projects/bootstrap/core/src/main/java/io/quarkus/bootstrap/classloading/QuarkusClassLoader.java:271-291 | one provider contributes all its resources for the name, in its own order |
| Aggregation.GetResources | independent-projects/bootstrap/core/src/main/java/io/quarkus/bootstrap/classloading/QuarkusClassLoader.java:235-316 | the enumeration fails on a '/'-rooted provided name and otherwise never repeats a URL |
| Aggregation.GetResourcesLocalFirst | independent-projects/bootstrap/core/src/main/java/io/quarkus/bootstrap/classloading/QuarkusClassLoader.java:267-301 | when the enumeration succeeds, this loader's de-duplicated local contributions form its prefix |
| Aggregation.GetResourcesBanned | independent-projects/bootstrap/core/src/main/java/io/quarkus/bootstrap/classloading/QuarkusClassLoader.java:245 | for a banned name the answer is exactly the de-duplicated local contributions; the parent is not asked |
| Aggregation.GetResourcesServiceForceBan | independent-projects/bootstrap/core/src/main/java/io/quarkus/bootstrap/classloading/QuarkusClassLoader.java:255-266 | for a service file whose service class this loader defined (its id is the class's loader), the answer is exactly the local contributions |
| Aggregation.ServiceForcedExactlyWhenLocal | independent-projects/bootstrap/core/src/main/java/io/quarkus/bootstrap/classloading/QuarkusClassLoader.java:255-262 | with distinct ids along the chain, the service check bans the parent exactly when the class found differs from the parent's answer |
| Aggregation.RecordOwnService | independent-projects/bootstrap/core/src/main/java/io/quarkus/bootstrap/classloading/QuarkusClassLoader.java:257 | after the service check, the class it loaded is remembered by its defining loader, wherever in the chain (that loader gains exactly this class); every other loader, at every level, is unchanged apart from remembered classes |
| Aggregation.RecordServiceLoads | independent-projects/bootstrap/core/src/main/java/io/quarkus/bootstrap/classloading/QuarkusClassLoader.java:255-313 | after getResources, this loader records the service class it defined itself (the Quarkus parents the lookup reaches are stated level by level by RecordServiceLoadsParent); at every level of the chain only remembered classes change; a failing state changes nothing |
| Aggregation.RecordServiceLoadsParent | independent-projects/bootstrap/core/src/main/java/io/quarkus/bootstrap/classloading/QuarkusClassLoader.java:302-313 | when getResources asks the Quarkus parent, the parent becomes the result of the parent's own getResources record, told whether this loader found anything, so the statement chains to every ancestor the lookup reaches; the parent remembers exactly the service class it defines itself, or nothing new; when it is not asked, the parent is left as the own check left it |
| Aggregation.GetResourcesLocalSuffices | independent-projects/bootstrap/core/src/main/java/io/quarkus/bootstrap/classloading/QuarkusClassLoader.java:302-315 | without aggregation, when there are local contributions the answer is exactly those |
| Aggregation.GetResourcesAlreadyFound | independent-projects/bootstrap/core/src/main/java/io/quarkus/bootstrap/classloading/QuarkusClassLoader.java:302-315 | without aggregation, with no local contributions and the caller's 'already found' flag set, the answer is empty |
| Aggregation.GetResourcesFallsBackToParent | independent-projects/bootstrap/core/src/main/java/io/quarkus/bootstrap/classloading/QuarkusClassLoader.java:302-315 | with no local contributions, no ban and the flag unset, the answer is the parent's, de-duplicated |
| Aggregation.GetResourcesAggregates | independent-projects/bootstrap/core/src/main/java/io/quarkus/bootstrap/classloading/QuarkusClassLoader.java:302-315 | an aggregating, non-banned loader returns its de-duplicated local contributions followed by the parent's URLs not already present, in the parent's order, and tells the parent whether it found any locally |
| Aggregation.GetResourcesTrailingSlash | independent-projects/bootstrap/core/src/main/java/io/quarkus/bootstrap/classloading/QuarkusClassLoader.java:272-288 | every local contribution to a trailing-slash lookup is a directory URL |
| Aggregation.GetResourcesRoot | independent-projects/bootstrap/core/src/main/java/io/quarkus/bootstrap/classloading/QuarkusClassLoader.java:292-300 | for the empty name with no provider, the local contributions are exactly the root resources of the elements |
| Aggregation.ElementsWithResource | independent-projects/bootstrap/core/src/main/java/io/quarkus/bootstrap/classloading/QuarkusClassLoader.java:617-630 | every element returned provides or fetches the name; a '/'-rooted provided name fails |
| Aggregation.ElementsWithResourceLocal | independent-projects/bootstrap/core/src/main/java/io/quarkus/bootstrap/classloading/QuarkusClassLoader.java:624-629 | a local-only query returns nothing for an unprovided name, the transformed element alone for a transformed one, and the reordered providers otherwise |
| Aggregation.LocalElementsAreOwn | independent-projects/bootstrap/core/src/main/java/io/quarkus/bootstrap/classloading/QuarkusClassLoader.java:624-629 | a local-only query returns this loader's own candidates and nothing inherited |
| Aggregation.ElementsWithResourceInherits | independent-projects/bootstrap/core/src/main/java/io/quarkus/bootstrap/classloading/QuarkusClassLoader.java:620-629 | under a Quarkus parent the answer is the parent's answer followed by the local one |
| Aggregation.LocalClassNames | independent-projects/bootstrap/core/src/main/java/io/quarkus/bootstrap/classloading/QuarkusClassLoader.java:632-643 | fails exactly on a '/'-rooted provided name; otherwise each class name is listed exactly as many times as there are provided ".class" names that convert to it |
| Aggregation.LoadableNames | independent-projects/bootstrap/core/src/main/java/io/quarkus/bootstrap/classloading/QuarkusClassLoader.java:635 | the names the loop visits are exactly the provided names |
| Aggregation.CountStep | independent-projects/bootstrap/core/src/main/java/io/quarkus/bootstrap/classloading/QuarkusClassLoader.java:636-641 | visiting one more name keeps every class name's count equal to the number of visited names that convert to it |
| Aggregation.VisitStep | independent-projects/bootstrap/core/src/main/java/io/quarkus/bootstrap/classloading/QuarkusClassLoader.java:636-641 | the same count, stated for the names not yet visited |
| Aggregation.ClassNameCollision | independent-projects/bootstrap/core/src/main/java/io/quarkus/bootstrap/classloading/QuarkusClassLoader.java:639 | "a/B.class" and "a.B.class" both convert to "a.B", which is then listed twice |
| Aggregation.LocalClassNamesLoadable | independent-projects/bootstrap/core/src/main/java/io/quarkus/bootstrap/classloading/QuarkusClassLoader.java:636-641 | a provided ".class" resource whose stem has no '.' is listed, and its listed class name converts back to it |
| Lifecycle.Create | independent-projects/bootstrap/core/src/main/java/io/quarkus/bootstrap/classloading/QuarkusClassLoader.java:145-158 | a new loader is open, has no cached state and no close tasks |
| Lifecycle.GetState | independent-projects/bootstrap/core/src/main/java/io/quarkus/bootstrap/classloading/QuarkusClassLoader.java:318-376 | the answer is the state determined by the loader's configuration; a success is cached; status and close tasks are unchanged |
| Lifecycle.GetStateIdempotent | independent-projects/bootstrap/core/src/main/java/io/quarkus/bootstrap/classloading/QuarkusClassLoader.java:318-323 | asking for the state twice gives the same answer and the second call changes nothing |
| Lifecycle.ReplaceElement | independent-projects/bootstrap/core/src/main/java/io/quarkus/bootstrap/classloading/QuarkusClassLoader.java:222 | the list keeps its length and the previous resettable element is replaced at every position it held |
| Lifecycle.Reset | independent-projects/bootstrap/core/src/main/java/io/quarkus/bootstrap/classloading/QuarkusClassLoader.java:215-226 | fails exactly when there is no resettable element; otherwise the cache is dropped, the transformed element becomes a fresh element of the transformed classes, the resettable element keeps its id and holds the generated resources in every list it is in, and nothing else changes |
| Lifecycle.ResetIgnoresStatus | independent-projects/bootstrap/core/src/main/java/io/quarkus/bootstrap/classloading/QuarkusClassLoader.java:215-221 | whether reset succeeds does not depend on the loader being open, closing or closed |
| Lifecycle.ResetThenLoadGenerated | independent-projects/bootstrap/core/src/main/java/io/quarkus/bootstrap/classloading/QuarkusClassLoader.java:215-226 | after a reset, a generated class that is not transformed, banned, parent-first or already defined is defined from the new generated bytes (the resettable element being first and not lesser-priority) |
| Lifecycle.ResetForgetsOldGenerated | independent-projects/bootstrap/core/src/main/java/io/quarkus/bootstrap/classloading/QuarkusClassLoader.java:222-224 | after a reset, the resettable element is no longer a candidate for a name absent from the new generated and transformed maps |
| Lifecycle.ResetKeepsNamesRelative | independent-projects/bootstrap/core/src/main/java/io/quarkus/bootstrap/classloading/QuarkusClassLoader.java:215-226 | a reset whose generated names do not start with '/' leaves no element claiming a '/'-rooted name, so the state still builds |
| Lifecycle.DefinedSurvivesReset | independent-projects/bootstrap/core/src/main/java/io/quarkus/bootstrap/classloading/QuarkusClassLoader.java:528-531 | a class this loader has defined keeps its definition across a reset |
| Lifecycle.ParentDefinitionSurvivesReset | independent-projects/bootstrap/core/src/main/java/io/quarkus/bootstrap/classloading/QuarkusClassLoader.java:539 | a class a Quarkus parent defined on delegation is still its answer after the child is reset |
| Lifecycle.ServiceDefinitionSurvivesReset | independent-projects/bootstrap/core/src/main/java/io/quarkus/bootstrap/classloading/QuarkusClassLoader.java:255-262 | a service class defined by getResources's service check is still loaded after a reset |
| Lifecycle.IsClosed | independent-projects/bootstrap/core/src/main/java/io/quarkus/bootstrap/classloading/QuarkusClassLoader.java:720-722 | closed exactly when the status is not open |
| Lifecycle.AddCloseTask | independent-projects/bootstrap/core/src/main/java/io/quarkus/bootstrap/classloading/QuarkusClassLoader.java:651-657 | the close task is appended and nothing else changes |
| Lifecycle.AddedTaskRuns | independent-projects/bootstrap/core/src/main/java/io/quarkus/bootstrap/classloading/QuarkusClassLoader.java:651-718 | a task added to an open loader runs at close right after the earlier tasks; one added after close never runs |
| Lifecycle.BeginClose | independent-projects/bootstrap/core/src/main/java/io/quarkus/bootstrap/classloading/QuarkusClassLoader.java:661-666 | only an open loader moves to closing; a closing or closed loader is left alone |
| Lifecycle.Close | independent-projects/bootstrap/core/src/main/java/io/quarkus/bootstrap/classloading/QuarkusClassLoader.java:660-718 | an open loader runs its close tasks, then closes its elements, then its banned elements, and ends closed; a closing or closed loader does nothing; the status never increases |
| Lifecycle.CloseIdempotent | independent-projects/bootstrap/core/src/main/java/io/quarkus/bootstrap/classloading/QuarkusClassLoader.java:660-666 | closing twice has no further effect |
| Lifecycle.Load | independent-projects/bootstrap/core/src/main/java/io/quarkus/bootstrap/classloading/QuarkusClassLoader.java:513-563 | the answer is loadClass's; the state a non-"java." lookup builds is cached and a "java." lookup leaves the cache alone; the class found is remembered by the loader that defined it, wherever in the chain, which gains exactly this class; no other loader changes and, at every level, only remembered classes differ |
| Lifecycle.LoadIdempotent | independent-projects/bootstrap/core/src/main/java/io/quarkus/bootstrap/classloading/QuarkusClassLoader.java:528-531 | with distinct ids along the chain, loading a class twice gives the same answer |
| Lifecycle.Resources | independent-projects/bootstrap/core/src/main/java/io/quarkus/bootstrap/classloading/QuarkusClassLoader.java:235-316 | the answer is getResources's and the state it builds is cached; the service class its check defines is recorded, and at every level of the chain only remembered classes change |
| Lifecycle.Apply | independent-projects/bootstrap/core/src/main/java/io/quarkus/bootstrap/classloading/QuarkusClassLoader.java:215-718 | no single transition (loadClass, getResources, getState, reset, addCloseTask, close) raises the status or drops a close task |
| Lifecycle.StatusNeverRises | independent-projects/bootstrap/core/src/main/java/io/quarkus/bootstrap/classloading/QuarkusClassLoader.java:215-718 | across any sequence of transitions the status never rises, a closed loader stays closed, and earlier close tasks are kept |

## Left out

- Defining a class: `defineClass`, protection domains, `definePackage` with manifest attributes, and the class-file verification they imply belong to the JVM. The model treats the first candidate's bytes as the class. `PackageName` models only the name computation of `getPackageNameFromClassName`.
- The JDBC `Driver` flag and the `DriverRemover` step of `close`: these are foreign calls into the JVM's driver registry.
- Locking, `synchronized` blocks, thread interrupt handling, `volatile` and double-checked caching: the model is sequential.
- Class-loader event listeners, logging, `ensureOpen` access logging, and `ResourceBundle.clearCache`: these have no effect on the answers.
- URL construction: `MalformedURLException` when appending '/' is not modelled. A directory URL with '/' appended is the value `DirOf(url)`.
- GetResourceAsStream: the `IOException` raised when a directory URL's stream opens is not modelled. The source skips to the next element in that case; the model always succeeds in opening the stream.
- LocalClassNames: returns a multiset, while the source returns a list in the state map's hash order. The count of each name is kept; the order is not.
- Object identity is an `id` field. The guarantees that compare a class's loader with "this" loader (LoadClassDefiner, ServiceForcedExactlyWhenLocal, LoadIdempotent) assume distinct ids along the chain, as distinct objects have.
- A parent is held by value inside the child (`Delegate(loader)`), while in the source it is a shared object the child only references. Sharing between loaders is out of scope: a class that `Load` or `Resources` records in a parent is seen only through that child, siblings sharing the parent do not see it, and a reset or close of the parent itself is not reflected in its children.
- The JVM's initiating-loader records are not modelled. A child that returned its parent's class keeps no record of it; only the defining loader remembers the class.
- Lifecycle.Close: the model does not record close tasks or element closes that throw. The source logs those and carries on, so the effect sequence is unchanged.
- The static helpers `getElements`, `isResourcePresentAtRuntime`, `getAllElements`, `visibleDefineClass`, the `findClass`/`findResource` wrappers, assertion status, and the platform class loader constant: these are outside the resolution core.
- `ClassloadHelper.fromClassNameToResourceName` is not part of this model's source. `Names.ClassToResourceName` follows its documented behaviour ('.' to '/', plus ".class").
- `MemoryClassPathElement` and the other `ClassPathElement` implementations are not part of this model. They are described only through what the loader asks of them: provided names, fetched resources, root listing.
- `OpenTelemetryResourceTest` exercises an extension on top of the loader and is not modelled.
