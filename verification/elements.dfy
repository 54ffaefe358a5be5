/** Class-path elements (`ClassPathElement`) as abstract values: an identity,
    the set of names the element claims to provide, and what fetching a name
    from it yields. */
module Elements {
  import opened Wrappers

  newtype Byte = b: int | 0 <= b < 256

  type Data = seq<Byte>

  /** URLs are opaque tokens. `DirOf(u)` is the URL the loader builds by
      appending '/' to the URL of a directory resource. */
  datatype Url = Loc(origin: nat, path: string) | DirOf(base: Url)

  /** `ClassPathResource`: the payload, the directory flag and the location. */
  datatype Resource = Resource(data: Data, isDirectory: bool, url: Url)

  /** `provided` is what `getProvidedResources` reports; `entries` is what the
      element hands out when asked. The two are kept apart: an element that
      was closed, or changed outside the loader's protocol, may claim a name
      and still fail to produce it. */
  datatype Element = Element(id: nat, provided: set<string>, entries: map<string, seq<Resource>>)

  /** `ClassPathElement.getResource`: the first resource under `name`, or null. */
  function Fetch(e: Element, name: string): (r: Option<Resource>)
    ensures r.Some? <==> name in e.entries && |e.entries[name]| > 0
    ensures r.Some? ==> r.value == e.entries[name][0]
  {
    if name in e.entries && |e.entries[name]| > 0 then Some(e.entries[name][0]) else None
  }

  /** `ClassPathElement.getResources`: every resource under `name`. */
  function FetchAll(e: Element, name: string): (r: seq<Resource>)
    ensures Fetch(e, name).Some? <==> |r| > 0
    ensures |r| > 0 ==> r[0] == Fetch(e, name).value
  {
    if name in e.entries then e.entries[name] else []
  }

  /** An in-memory element (`MemoryClassPathElement`) over a map from name to
      bytes: it provides exactly the map's keys, each as one plain (non
      directory) resource. */
  function MemoryElement(id: nat, contents: map<string, Data>): (e: Element)
    ensures e.id == id
    ensures e.provided == contents.Keys
    ensures forall n :: Fetch(e, n).Some? <==> n in contents
    ensures forall n :: n in contents ==> Fetch(e, n).value.data == contents[n] && !Fetch(e, n).value.isDirectory
    ensures forall n :: |FetchAll(e, n)| <= 1
  {
    Element(id, contents.Keys, map n | n in contents :: [Resource(contents[n], false, Loc(id, n))])
  }
}
