/** Insertion-ordered sets (Java's `LinkedHashSet`) represented as sequences
    without duplicates. */
module Sequences {

  predicate NoDups<T(==)>(s: seq<T>) {
    forall i, j :: 0 <= i < j < |s| ==> s[i] != s[j]
  }

  /** Index of the first occurrence of `x` in `s`. */
  function FirstIndex<T(==)>(s: seq<T>, x: T): (k: nat)
    requires x in s
    ensures k < |s| && s[k] == x
    ensures forall j :: 0 <= j < k ==> s[j] != x
  {
    if s[0] == x then 0 else 1 + FirstIndex(s[1..], x)
  }

  /** `LinkedHashSet.add`: appends `x` unless it is already present. */
  function Add<T(==)>(s: seq<T>, x: T): seq<T> {
    if x in s then s else s + [x]
  }

  /** `LinkedHashSet.addAll` of the elements of `xs`, one after another. */
  function AddAll<T(==,!new)>(acc: seq<T>, xs: seq<T>): (r: seq<T>)
    ensures |acc| <= |r| && r[..|acc|] == acc
    ensures forall x :: x in r <==> x in acc || x in xs
    ensures NoDups(acc) ==> NoDups(r)
    decreases |xs|
  {
    if xs == [] then acc
    else
      var prev := AddAll(acc, xs[..|xs| - 1]);
      assert forall x :: x in xs <==> x in xs[..|xs| - 1] || x == xs[|xs| - 1] by {
        assert xs == xs[..|xs| - 1] + [xs[|xs| - 1]];
      }
      Add(prev, xs[|xs| - 1])
  }

  /** The de-duplicated elements of `xs` in first-occurrence order. */
  function Distinct<T(==,!new)>(xs: seq<T>): (r: seq<T>)
    ensures NoDups(r)
    ensures forall x :: x in r <==> x in xs
  {
    AddAll([], xs)
  }

  /** The elements `AddAll` appends behind `acc` are new, and appear in the
      order of their first occurrence in `xs`. */
  lemma {:induction false} AddAllFirstOccurrenceOrder<T(!new)>(acc: seq<T>, xs: seq<T>)
    ensures forall i :: |acc| <= i < |AddAll(acc, xs)| ==> AddAll(acc, xs)[i] !in acc && AddAll(acc, xs)[i] in xs
    ensures forall i, j :: |acc| <= i < j < |AddAll(acc, xs)| ==>
              FirstIndex(xs, AddAll(acc, xs)[i]) < FirstIndex(xs, AddAll(acc, xs)[j])
    decreases |xs|
  {
    var r := AddAll(acc, xs);
    if xs != [] {
      var init := xs[..|xs| - 1];
      var x := xs[|xs| - 1];
      var prev := AddAll(acc, init);
      AddAllFirstOccurrenceOrder(acc, init);
      assert xs == init + [x];
      forall y | y in init
        ensures FirstIndex(xs, y) == FirstIndex(init, y)
      {
        FirstIndexOfPrefix(init, [x], y);
      }
      if x !in prev {
        assert r == prev + [x];
        assert x !in init;
        assert FirstIndex(xs, x) == |xs| - 1;
        forall i | |acc| <= i < |prev|
          ensures FirstIndex(xs, r[i]) < FirstIndex(xs, x)
        {
          assert r[i] == prev[i];
        }
      } else {
        assert r == prev;
      }
    }
  }

  lemma {:induction false} FirstIndexOfPrefix<T>(s: seq<T>, t: seq<T>, x: T)
    requires x in s
    ensures x in s + t && FirstIndex(s + t, x) == FirstIndex(s, x)
  {
    if s[0] != x {
      assert (s + t)[1..] == s[1..] + t;
      FirstIndexOfPrefix(s[1..], t, x);
    }
  }

  /** Adding to an insertion-ordered set keeps everything already there, in place. */
  lemma {:induction false} AddAllKeepsPrefix<T(!new)>(a: seq<T>, b: seq<T>, c: seq<T>)
    ensures AddAll(AddAll(a, b), c)[..|AddAll(a, b)|] == AddAll(a, b)
    ensures AddAll(AddAll(a, b), c)[..|a|] == a
  {
    var ab := AddAll(a, b);
    var r := AddAll(ab, c);
    assert r[..|ab|] == ab;
    assert ab[..|a|] == a;
    assert r[..|a|] == r[..|ab|][..|a|];
  }
}
