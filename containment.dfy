/** The containment graph of `Bucket._identify_substructure`: which inner
    wells lie inside which, which of those are immediate children, and which
    wells are roots (the top-level sub-buckets of the primary bucket).
    A well is represented by its time samples, of which only the first and
    the last are ever looked at. */
module Containment {
  import opened Common

  predicate NonEmptyWells(times: seq<seq<real>>)
  {
    forall i :: 0 <= i < |times| ==> |times[i]| > 0
  }

  /** Well i's time span lies (non-strictly) inside well j's. */
  predicate Inside(times: seq<seq<real>>, i: nat, j: nat)
    requires NonEmptyWells(times) && i < |times| && j < |times|
  {
    times[i][0] >= times[j][0] && Last(times[i]) <= Last(times[j])
  }

  /** Well j "contains" well i: i is inside j and is another well. */
  predicate Contains(times: seq<seq<real>>, j: nat, i: nat)
    requires NonEmptyWells(times) && i < |times| && j < |times|
  {
    i != j && Inside(times, i, j)
  }

  /** c is contained in b, and not through any well d that b contains. */
  predicate ImmediateChild(times: seq<seq<real>>, c: nat, b: nat)
    requires NonEmptyWells(times) && c < |times| && b < |times|
  {
    Contains(times, b, c) &&
    !exists d :: 0 <= d < |times| && Contains(times, b, d) && Contains(times, d, c)
  }

  /** No well lists i as an immediate child. */
  predicate Root(times: seq<seq<real>>, i: nat)
    requires NonEmptyWells(times) && i < |times|
  {
    forall b :: 0 <= b < |times| ==> !ImmediateChild(times, i, b)
  }

  predicate IndicesBelow(s: seq<nat>, n: nat)
  {
    forall k :: 0 <= k < |s| ==> s[k] < n
  }

  predicate ListsBelow(ls: seq<seq<nat>>, n: nat)
  {
    forall j :: 0 <= j < |ls| ==> IndicesBelow(ls[j], n)
  }

  /** The `contains` lists: for each well j, the ascending list of the other
      wells inside it. */
  method ContainsLists(times: seq<seq<real>>) returns (contains: seq<seq<nat>>)
    requires NonEmptyWells(times)
    ensures |contains| == |times| && ListsBelow(contains, |times|)
    ensures forall j :: 0 <= j < |times| ==> Increasing(contains[j])
    ensures forall j, i :: 0 <= j < |times| && 0 <= i < |times| ==>
              (i in contains[j] <==> Contains(times, j, i))
  {
    contains := [];
    var j := 0;
    while j < |times|
      invariant 0 <= j <= |times|
      invariant |contains| == j && ListsBelow(contains, |times|)
      invariant forall jj :: 0 <= jj < j ==> Increasing(contains[jj])
      invariant forall jj, i :: 0 <= jj < j && 0 <= i < |times| ==>
                  (i in contains[jj] <==> Contains(times, jj, i))
    {
      var c: seq<nat> := [];
      var i := 0;
      while i < |times|
        invariant 0 <= i <= |times|
        invariant Increasing(c) && IndicesBelow(c, i)
        invariant forall x :: 0 <= x < |times| ==> (x in c <==> x < i && Contains(times, j, x))
      {
        if times[i][0] >= times[j][0] && Last(times[i]) <= Last(times[j]) && i != j {
          c := c + [i];
        }
        i := i + 1;
      }
      contains := contains + [c];
      j := j + 1;
    }
  }

  /** `contains[cs[0]] + contains[cs[1]] + ...`, the lists of every well in cs. */
  function ConcatOf(contains: seq<seq<nat>>, cs: seq<nat>): (r: seq<nat>)
    requires IndicesBelow(cs, |contains|)
    ensures forall x :: x in r <==> exists k :: 0 <= k < |cs| && x in contains[cs[k]]
  {
    if cs == [] then []
    else
      var init := cs[..|cs| - 1];
      var r := ConcatOf(contains, init) + contains[Last(cs)];
      assert forall k :: 0 <= k < |init| ==> init[k] == cs[k];
      r
  }

  /** The `exclude` lists: for each well, the wells contained in the wells it
      contains (two hops away), with repetitions, in loop order. */
  method ExcludeLists(contains: seq<seq<nat>>) returns (exclude: seq<seq<nat>>)
    requires ListsBelow(contains, |contains|)
    ensures |exclude| == |contains|
    ensures forall j :: 0 <= j < |contains| ==> exclude[j] == ConcatOf(contains, contains[j])
  {
    exclude := [];
    var j := 0;
    while j < |contains|
      invariant 0 <= j <= |contains| && |exclude| == j
      invariant forall jj :: 0 <= jj < j ==> exclude[jj] == ConcatOf(contains, contains[jj])
    {
      var exc: seq<nat> := [];
      var k := 0;
      while k < |contains[j]|
        invariant 0 <= k <= |contains[j]|
        invariant exc == ConcatOf(contains, contains[j][..k])
      {
        assert contains[j][..k + 1][..k] == contains[j][..k];
        exc := exc + contains[contains[j][k]];
        k := k + 1;
      }
      assert contains[j][..|contains[j]|] == contains[j];
      exclude := exclude + [exc];
      j := j + 1;
    }
  }

  /** `[c for c in s if c not in ex]`: s with the members of ex dropped, in
      the order of s. */
  function Without(s: seq<nat>, ex: seq<nat>): (r: seq<nat>)
    ensures |r| <= |s|
    ensures forall x :: x in r <==> x in s && x !in ex
  {
    if s == [] then []
    else if s[0] in ex then Without(s[1..], ex)
    else [s[0]] + Without(s[1..], ex)
  }

  /** Filtering keeps the order: an ascending list stays ascending. */
  lemma {:induction false} WithoutKeepsOrder(s: seq<nat>, ex: seq<nat>)
    requires Increasing(s)
    ensures Increasing(Without(s, ex))
  {
    if s != [] {
      var rest := Without(s[1..], ex);
      assert Increasing(s[1..]);
      WithoutKeepsOrder(s[1..], ex);
      if s[0] !in ex {
        var r := [s[0]] + rest;
        forall k | 0 <= k < |rest| ensures s[0] < rest[k] {
          assert rest[k] in s[1..];
        }
        assert Increasing(r);
      }
    }
  }

  /** The `useCont` lists: each well's contained wells minus its exclude list. */
  method UseContLists(contains: seq<seq<nat>>, exclude: seq<seq<nat>>) returns (useCont: seq<seq<nat>>)
    requires |exclude| == |contains|
    ensures |useCont| == |contains|
    ensures forall i :: 0 <= i < |contains| ==> useCont[i] == Without(contains[i], exclude[i])
  {
    useCont := [];
    var i := 0;
    while i < |contains|
      invariant 0 <= i <= |contains| && |useCont| == i
      invariant forall ii :: 0 <= ii < i ==> useCont[ii] == Without(contains[ii], exclude[ii])
    {
      useCont := useCont + [Without(contains[i], exclude[i])];
      i := i + 1;
    }
  }

  /** `any(i in c for c in useCont)` */
  predicate Listed(useCont: seq<seq<nat>>, i: nat)
  {
    exists k :: 0 <= k < |useCont| && i in useCont[k]
  }

  /** The `nextLayer` list: the ascending indices below |useCont| that no
      useCont list holds. */
  method NextLayer(useCont: seq<seq<nat>>) returns (roots: seq<nat>)
    ensures Increasing(roots) && IndicesBelow(roots, |useCont|)
    ensures forall i :: 0 <= i < |useCont| ==> (i in roots <==> !Listed(useCont, i))
  {
    roots := [];
    var i := 0;
    while i < |useCont|
      invariant 0 <= i <= |useCont|
      invariant Increasing(roots) && IndicesBelow(roots, i)
      invariant forall x :: 0 <= x < |useCont| ==> (x in roots <==> x < i && !Listed(useCont, x))
    {
      if !Listed(useCont, i) {
        roots := roots + [i];
      }
      i := i + 1;
    }
  }

  /** The ascending list of the immediate children below n of well b. */
  function ChildList(times: seq<seq<real>>, b: nat, n: nat): (r: seq<nat>)
    requires NonEmptyWells(times) && b < |times| && n <= |times|
    ensures Increasing(r) && IndicesBelow(r, n)
  {
    if n == 0 then []
    else
      var init := ChildList(times, b, n - 1);
      if ImmediateChild(times, n - 1, b) then init + [n - 1] else init
  }

  /** ChildList lists exactly the immediate children below n. */
  lemma {:induction false} ChildListMembers(times: seq<seq<real>>, b: nat, n: nat)
    requires NonEmptyWells(times) && b < |times| && n <= |times|
    ensures forall c :: c in ChildList(times, b, n) <==> 0 <= c < n && ImmediateChild(times, c, b)
  {
    if n > 0 {
      ChildListMembers(times, b, n - 1);
    }
  }

  /** The ascending list of the roots below n. */
  function RootList(times: seq<seq<real>>, n: nat): (r: seq<nat>)
    requires NonEmptyWells(times) && n <= |times|
    ensures Increasing(r) && IndicesBelow(r, n)
  {
    if n == 0 then []
    else
      var init := RootList(times, n - 1);
      if Root(times, n - 1) then init + [n - 1] else init
  }

  /** RootList lists exactly the roots below n. */
  lemma {:induction false} RootListMembers(times: seq<seq<real>>, n: nat)
    requires NonEmptyWells(times) && n <= |times|
    ensures forall c :: c in RootList(times, n) <==> 0 <= c < n && Root(times, c)
  {
    if n > 0 {
      RootListMembers(times, n - 1);
    }
  }

  /** In ascending lists with the same members and the same head, a member
      of one tail is a member of the other. */
  lemma TailMember(s: seq<nat>, t: seq<nat>, x: nat)
    requires Increasing(s) && Increasing(t) && s != [] && t != [] && s[0] == t[0]
    requires forall y :: y in s <==> y in t
    requires x in s[1..]
    ensures x in t[1..]
  {
    var a :| 0 <= a < |s[1..]| && s[1..][a] == x;
    assert s[a + 1] == x && s[0] < x;
    assert x in s;
    var c :| 0 <= c < |t| && t[c] == x;
    assert c != 0;
    assert t[1..][c - 1] == x;
  }

  /** An ascending list is determined by its members. */
  lemma {:induction false} IncreasingUnique(s: seq<nat>, t: seq<nat>)
    requires Increasing(s) && Increasing(t)
    requires forall x :: x in s <==> x in t
    ensures s == t
  {
    assert |s| > 0 ==> s[0] in t;
    assert |t| > 0 ==> t[0] in s;
    if s != [] && t != [] {
      assert forall j :: 0 <= j < |s| ==> s[0] <= s[j];
      assert forall j :: 0 <= j < |t| ==> t[0] <= t[j];
      assert s[0] == t[0];
      forall x ensures x in s[1..] <==> x in t[1..] {
        if x in s[1..] {
          TailMember(s, t, x);
        }
        if x in t[1..] {
          TailMember(t, s, x);
        }
      }
      assert Increasing(s[1..]) && Increasing(t[1..]);
      IncreasingUnique(s[1..], t[1..]);
      assert s == [s[0]] + s[1..] && t == [t[0]] + t[1..];
    }
  }

  /** The whole graph pass of bucket.py:73-95: the immediate-children lists
      and the roots, characterised by the geometry of the time spans. */
  method SubstructureGraph(times: seq<seq<real>>) returns (useCont: seq<seq<nat>>, nextLayer: seq<nat>)
    requires NonEmptyWells(times)
    ensures |useCont| == |times| && ListsBelow(useCont, |times|)
    ensures forall b :: 0 <= b < |times| ==> useCont[b] == ChildList(times, b, |times|)
    ensures nextLayer == RootList(times, |times|)
  {
    var contains := ContainsLists(times);
    var exclude := ExcludeLists(contains);
    useCont := UseContLists(contains, exclude);
    forall b, c | 0 <= b < |times| && 0 <= c < |times|
      ensures c in useCont[b] <==> ImmediateChild(times, c, b)
    {
      assert useCont[b] == Without(contains[b], exclude[b]);
      assert exclude[b] == ConcatOf(contains, contains[b]);
      if c in useCont[b] {
        forall d | 0 <= d < |times| && Contains(times, b, d)
          ensures !Contains(times, d, c)
        {
          assert d in contains[b];
          var k :| 0 <= k < |contains[b]| && contains[b][k] == d;
          assert c !in contains[contains[b][k]];
        }
      } else if Contains(times, b, c) {
        assert c in exclude[b];
        var k :| 0 <= k < |contains[b]| && c in contains[contains[b][k]];
        assert Contains(times, contains[b][k], c);
      }
    }
    forall b | 0 <= b < |times| ensures IndicesBelow(useCont[b], |times|) && Increasing(useCont[b]) {
      assert useCont[b] == Without(contains[b], exclude[b]);
      WithoutKeepsOrder(contains[b], exclude[b]);
      forall k | 0 <= k < |useCont[b]| ensures useCont[b][k] < |times| {
        assert useCont[b][k] in contains[b];
      }
    }
    nextLayer := NextLayer(useCont);
    forall i | 0 <= i < |times| ensures i in nextLayer <==> Root(times, i) {
      if !Root(times, i) {
        var b :| 0 <= b < |times| && ImmediateChild(times, i, b);
        assert i in useCont[b];
      }
    }
    forall b | 0 <= b < |times| ensures useCont[b] == ChildList(times, b, |times|) {
      ChildListMembers(times, b, |times|);
      IncreasingUnique(useCont[b], ChildList(times, b, |times|));
    }
    RootListMembers(times, |times|);
    IncreasingUnique(nextLayer, RootList(times, |times|));
  }

  // ----- Properties of the graph -----

  /** With strict nesting A ⊃ B ⊃ C, C is never an immediate child of A. */
  lemma GrandchildIsNotChild(times: seq<seq<real>>, a: nat, b: nat, c: nat)
    requires NonEmptyWells(times) && a < |times| && b < |times| && c < |times|
    requires Contains(times, a, b) && Contains(times, b, c) && c != a
    ensures !ImmediateChild(times, c, a)
  {
    assert Contains(times, a, c);
  }

  /** Three wells nested strictly: well 0 holds 1, which holds 2.  Then 1 is
      the only child of 0, 2 the only child of 1, and 0 is the only root. */
  lemma ThreeLevelNesting(times: seq<seq<real>>)
    requires NonEmptyWells(times) && |times| == 3
    requires Inside(times, 1, 0) && Inside(times, 2, 1)
    requires !Inside(times, 0, 1) && !Inside(times, 1, 2)
    ensures ImmediateChild(times, 1, 0) && ImmediateChild(times, 2, 1)
    ensures !ImmediateChild(times, 2, 0)
    ensures Root(times, 0) && !Root(times, 1) && !Root(times, 2)
  {
    assert !Inside(times, 0, 2);
    assert Contains(times, 0, 1) && Contains(times, 1, 2) && Contains(times, 0, 2);
  }

  /** Two wells whose spans do not overlap: both are roots, neither has a child. */
  lemma DisjointWellsAreRoots(times: seq<seq<real>>)
    requires NonEmptyWells(times) && |times| == 2
    requires times[0][0] <= Last(times[0]) && times[1][0] <= Last(times[1])
    requires Last(times[0]) < times[1][0]
    ensures Root(times, 0) && Root(times, 1)
    ensures !ImmediateChild(times, 0, 1) && !ImmediateChild(times, 1, 0)
  {
  }

  /** Two wells with identical end points contain each other, so each is the
      other's immediate child and neither is a root. */
  lemma EqualSpansHaveNoRoot(times: seq<seq<real>>)
    requires NonEmptyWells(times) && |times| == 2
    requires times[0][0] == times[1][0] && Last(times[0]) == Last(times[1])
    ensures ImmediateChild(times, 0, 1) && ImmediateChild(times, 1, 0)
    ensures !Root(times, 0) && !Root(times, 1)
  {
    assert Contains(times, 1, 0) && Contains(times, 0, 1);
    assert !Contains(times, 0, 0) && !Contains(times, 1, 1);
  }

  predicate DistinctSpans(times: seq<seq<real>>)
    requires NonEmptyWells(times)
  {
    forall i, j :: 0 <= i < j < |times| ==> !(Inside(times, i, j) && Inside(times, j, i))
  }

  /** The index of a well with the earliest start, and the latest stop among those. */
  function Outermost(times: seq<seq<real>>, n: nat): (r: nat)
    requires NonEmptyWells(times) && 0 < n <= |times|
    ensures r < n
    ensures forall i :: 0 <= i < n ==>
              times[r][0] <= times[i][0] &&
              (times[r][0] == times[i][0] ==> Last(times[i]) <= Last(times[r]))
  {
    if n == 1 then 0
    else
      var r := Outermost(times, n - 1);
      var i := n - 1;
      if times[i][0] < times[r][0] ||
         (times[i][0] == times[r][0] && Last(times[i]) > Last(times[r]))
      then i else r
  }

  /** When no two wells share both end points, a non-empty set of inner wells
      always has a root, so the primary bucket then has sub-buckets. */
  lemma {:induction false} DistinctSpansHaveRoot(times: seq<seq<real>>)
    requires NonEmptyWells(times) && |times| > 0 && DistinctSpans(times)
    ensures exists i :: 0 <= i < |times| && Root(times, i)
  {
    var r := Outermost(times, |times|);
    forall b | 0 <= b < |times| ensures !Contains(times, b, r) {
      if b < r {
        assert !(Inside(times, b, r) && Inside(times, r, b));
      } else if r < b {
        assert !(Inside(times, r, b) && Inside(times, b, r));
      }
    }
    assert Root(times, r);
  }
}
