/** The small string work of the class loader: name sanitising, the
    conversion between binary class names and resource names, and package
    names. */
module Names {
  import opened Wrappers

  /** Class names with this prefix always go straight to the parent. */
  const JAVA: string := "java."
  /** Resource prefix of service-loader descriptors. */
  const META_INF_SERVICES: string := "META-INF/services/"
  const CLASS_SUFFIX: string := ".class"

  predicate StartsWith(s: string, prefix: string) {
    |prefix| <= |s| && s[..|prefix|] == prefix
  }

  predicate EndsWith(s: string, suffix: string) {
    |suffix| <= |s| && s[|s| - |suffix|..] == suffix
  }

  /** Number of characters a leading '/' occupies: 1 or 0. */
  function Lead(name: string): nat {
    if StartsWith(name, "/") then 1 else 0
  }

  /** `sanitizeName`: drops one leading '/' and then one trailing '/'. */
  function SanitizeName(name: string): (r: string)
    // the result is the part of the name after the optional leading '/'
    ensures Lead(name) + |r| <= |name|
    ensures r == name[Lead(name)..Lead(name) + |r|]
    // at most one character is removed at the end, and only a '/'
    ensures |name| - Lead(name) - 1 <= |r|
    ensures Lead(name) + |r| < |name| ==> name[|name| - 1] == '/'
    // ... and a trailing '/' left after the leading one is always removed
    ensures EndsWith(name[Lead(name)..], "/") ==> Lead(name) + |r| == |name| - 1
    ensures Lead(name) == 1 ==> name[0] == '/'
    // a name with neither a leading nor a trailing '/' is returned unchanged
    ensures !StartsWith(name, "/") && !EndsWith(name, "/") ==> r == name
  {
    var s := if StartsWith(name, "/") then name[1..] else name;
    if EndsWith(s, "/") then s[..|s| - 1] else s
  }

  /** A leading '/' is ignored: with or without it the sanitised name is the same. */
  lemma SanitizeIgnoresLeadingSlash(name: string)
    requires !StartsWith(name, "/")
    ensures SanitizeName("/" + name) == SanitizeName(name)
  {
    assert ("/" + name)[1..] == name;
  }

  /** A trailing '/' is ignored too. */
  lemma SanitizeIgnoresTrailingSlash(name: string)
    requires !EndsWith(name, "/")
    ensures SanitizeName(name + "/") == SanitizeName(name)
  {
    var t := name + "/";
    if StartsWith(name, "/") {
      assert t[1..] == name[1..] + "/";
      assert (name[1..] + "/")[..|name[1..]|] == name[1..];
      assert !EndsWith(name[1..], "/") by {
        if |name[1..]| >= 1 {
          assert name[1..][|name[1..]| - 1] == name[|name| - 1];
        }
      }
    } else if |name| == 0 {
      assert t == "/";
    } else {
      assert t[0] == name[0];
      assert !StartsWith(t, "/");
      assert t[..|name|] == name;
    }
  }

  /** A name with at most one slash at each end comes out with none at either end. */
  lemma SanitizeStripsSingleSlashes(name: string)
    requires !StartsWith(name, "//") && !EndsWith(name, "//")
    ensures !StartsWith(SanitizeName(name), "/")
    ensures !EndsWith(SanitizeName(name), "/")
  {
    var r := SanitizeName(name);
    var k := Lead(name);
    if |r| > 0 {
      assert r[0] == name[k];
      assert r[|r| - 1] == name[k + |r| - 1];
      if k == 1 {
        assert name[..2] == "/" + [name[1]];
      }
      if k + |r| < |name| {
        assert |name| >= 2;
        assert name[|name| - 2..] == [name[|name| - 2]] + "/";
      }
    }
  }

  /** Character-wise replacement, as Java's `String.replace(char, char)`. */
  function Replace(s: string, from: char, to: char): (r: string)
    ensures |r| == |s|
    ensures forall i :: 0 <= i < |s| ==> r[i] == (if s[i] == from then to else s[i])
  {
    if s == [] then [] else Replace(s[..|s| - 1], from, to) + [if s[|s| - 1] == from then to else s[|s| - 1]]
  }

  /** `fromClassNameToResourceName`: `a.b.C` becomes `a/b/C.class`. */
  function ClassToResourceName(className: string): (r: string)
    ensures EndsWith(r, CLASS_SUFFIX)
    ensures |r| == |className| + |CLASS_SUFFIX|
    ensures forall i :: 0 <= i < |className| ==> r[i] == if className[i] == '.' then '/' else className[i]
    ensures forall i :: 0 <= i < |className| ==> r[i] != '.'
  {
    Replace(className, '.', '/') + CLASS_SUFFIX
  }

  /** The class name `getLocalClassNames` derives from a `.class` resource name. */
  function ResourceToClassName(resourceName: string): (r: string)
    requires EndsWith(resourceName, CLASS_SUFFIX)
    ensures |r| == |resourceName| - |CLASS_SUFFIX|
    ensures forall i :: 0 <= i < |r| ==> r[i] == if resourceName[i] == '/' then '.' else resourceName[i]
    ensures forall i :: 0 <= i < |r| ==> r[i] != '/'
  {
    Replace(resourceName[..|resourceName| - |CLASS_SUFFIX|], '/', '.')
  }

  /** A class name without '/' survives the trip to a resource name and back. */
  lemma {:induction false} ClassNameRoundTrip(className: string)
    requires forall i :: 0 <= i < |className| ==> className[i] != '/'
    ensures ResourceToClassName(ClassToResourceName(className)) == className
  {
    var rn := ClassToResourceName(className);
    assert rn[..|rn| - |CLASS_SUFFIX|] == Replace(className, '.', '/');
    var back := ResourceToClassName(rn);
    assert forall i :: 0 <= i < |className| ==> back[i] == className[i];
  }

  /** A `.class` resource name whose stem holds no '.' survives the trip to a class name and back. */
  lemma {:induction false} ResourceNameRoundTrip(resourceName: string)
    requires EndsWith(resourceName, CLASS_SUFFIX)
    requires forall i :: 0 <= i < |resourceName| - |CLASS_SUFFIX| ==> resourceName[i] != '.'
    ensures ClassToResourceName(ResourceToClassName(resourceName)) == resourceName
  {
    var stem := resourceName[..|resourceName| - |CLASS_SUFFIX|];
    var back := ClassToResourceName(ResourceToClassName(resourceName));
    assert back[..|stem|] == stem;
    assert resourceName == stem + CLASS_SUFFIX;
  }

  /** `String.lastIndexOf(char)`: the last position holding `c`, or -1. */
  function LastIndexOf(s: string, c: char): (r: int)
    ensures -1 <= r < |s|
    ensures r >= 0 ==> s[r] == c
    ensures forall j :: r < j < |s| ==> s[j] != c
  {
    if s == [] then -1
    else if s[|s| - 1] == c then |s| - 1
    else LastIndexOf(s[..|s| - 1], c)
  }

  /** `getPackageNameFromClassName`: everything before the last '.', or no
      package (null) for a class in the default package. */
  function PackageName(className: string): (r: Option<string>)
    ensures r.None? <==> forall i :: 0 <= i < |className| ==> className[i] != '.'
    ensures r.Some? ==> |r.value| < |className| && className[..|r.value|] == r.value
    ensures r.Some? ==> className[|r.value|] == '.'
    ensures r.Some? ==> forall j :: |r.value| < j < |className| ==> className[j] != '.'
  {
    var index := LastIndexOf(className, '.');
    if index == -1 then None else Some(className[..index])
  }
}
