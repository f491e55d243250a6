/** The two vector idioms the system is built from: a linear search for the
    first element that satisfies a test (the `find*` loops), and the removal
    of every element that satisfies one (`erase(remove_if(...), end())`). */
module Sequences {
  import opened Wrappers

  /** The position of the first element of `s` that passes `p`. */
  function First<T>(s: seq<T>, p: T -> bool): (r: Option<nat>)
    ensures r.Some? ==> r.value < |s| && p(s[r.value]) && forall j :: 0 <= j < r.value ==> !p(s[j])
    ensures r.None? ==> forall j :: 0 <= j < |s| ==> !p(s[j])
  {
    if s == [] then None
    else if p(s[0]) then Some(0)
    else
      var r := First(s[1..], p);
      assert forall j :: 1 <= j < |s| ==> s[j] == s[1..][j - 1];
      if r.None? then None else Some(r.value + 1)
  }

  /** The first passing position is determined by where the tests fail. */
  lemma FirstIs<T>(s: seq<T>, p: T -> bool, i: nat)
    requires i <= |s|
    requires forall j :: 0 <= j < i ==> !p(s[j])
    requires i < |s| ==> p(s[i])
    ensures First(s, p) == if i < |s| then Some(i) else None
  {
  }

  /** The elements of `s` that pass `keep`, in their order. */
  function Filter<T>(s: seq<T>, keep: T -> bool): (r: seq<T>)
    ensures |r| <= |s|
    decreases |s|
  {
    if s == [] then []
    else
      var init := Filter(s[..|s| - 1], keep);
      var last := s[|s| - 1];
      assert s == s[..|s| - 1] + [last];
      if keep(last) then init + [last] else init
  }

  /** Filtering keeps exactly the elements that pass: each element of the
      result is an element of `s` that passes, and each element of `s`
      that passes is in the result. */
  lemma {:induction false} FilterMembers<T>(s: seq<T>, keep: T -> bool)
    ensures forall i :: 0 <= i < |Filter(s, keep)| ==> Filter(s, keep)[i] in s && keep(Filter(s, keep)[i])
    ensures forall j :: 0 <= j < |s| && keep(s[j]) ==> s[j] in Filter(s, keep)
    decreases |s|
  {
    if s != [] {
      var init := s[..|s| - 1];
      FilterMembers(init, keep);
      assert s == init + [s[|s| - 1]];
      assert forall j :: 0 <= j < |init| ==> init[j] == s[j];
    }
  }

  /** Nothing is dropped exactly when every element passes. */
  lemma {:induction false} FilterKeepsAll<T>(s: seq<T>, keep: T -> bool)
    ensures Filter(s, keep) == s <==> forall j :: 0 <= j < |s| ==> keep(s[j])
    ensures |Filter(s, keep)| == |s| <==> forall j :: 0 <= j < |s| ==> keep(s[j])
    decreases |s|
  {
    if s != [] {
      var init := s[..|s| - 1];
      var last := s[|s| - 1];
      FilterKeepsAll(init, keep);
      assert s == init + [last];
      assert forall j :: 0 <= j < |init| ==> init[j] == s[j];
      if !keep(last) {
        assert |Filter(s, keep)| <= |init|;
      }
    }
  }

  /** Filtering one element more. */
  lemma FilterStep<T>(s: seq<T>, keep: T -> bool, i: nat)
    requires i < |s|
    ensures Filter(s[..i + 1], keep) == Filter(s[..i], keep) + (if keep(s[i]) then [s[i]] else [])
  {
    assert s[..i + 1][..i] == s[..i];
  }

  /** Filtering out a single element. */
  lemma {:induction false} FilterAllButOne<T>(s: seq<T>, keep: T -> bool, d: nat)
    requires d < |s| && !keep(s[d])
    requires forall j :: 0 <= j < |s| && j != d ==> keep(s[j])
    ensures Filter(s, keep) == s[..d] + s[d + 1..]
    decreases |s|
  {
    var init := s[..|s| - 1];
    var last := s[|s| - 1];
    assert s == init + [last];
    if d == |s| - 1 {
      FilterKeepsAll(init, keep);
      assert s[..d] == init;
    } else {
      assert forall j :: 0 <= j < |init| ==> init[j] == s[j];
      FilterAllButOne(init, keep, d);
      assert s[..d] == init[..d];
      assert s[d + 1..] == init[d + 1..] + [last];
    }
  }

  /** `v.erase(remove_if(v.begin(), v.end(), pred), v.end())` where `keep`
      is the negation of `pred`: what stays is the kept elements in order
      (the moved-from tail is erased). */
  method EraseRemoveIf<T>(s: seq<T>, keep: T -> bool) returns (r: seq<T>)
    ensures r == Filter(s, keep)
  {
    r := [];
    var i := 0;
    while i < |s|
      invariant i <= |s|
      invariant r == Filter(s[..i], keep)
    {
      FilterStep(s, keep, i);
      if keep(s[i]) {
        r := r + [s[i]];
      }
      i := i + 1;
    }
    assert s[..i] == s;
  }
}
