/** Greedy non-maximum suppression, and its composition with the sort. */
module Suppression {
  import opened DescendingSort
  import opened Rectangles

  predicate Competes(a: Object, b: Object, agnostic: bool) { agnostic || a.category == b.category }

  /** The detections compete, and the overlap exceeds the threshold; written as a
      product, see ConflictIsQuotient. */
  predicate Conflict(a: Object, b: Object, threshold: real, agnostic: bool) {
    Competes(a, b, agnostic) && IntersectionArea(a.rect, b.rect) > threshold * UnionArea(a.rect, b.rect)
  }

  lemma ConflictSymmetric(a: Object, b: Object, threshold: real, agnostic: bool)
    ensures Conflict(a, b, threshold, agnostic) <==> Conflict(b, a, threshold, agnostic)
  {
    assert IntersectionArea(a.rect, b.rect) == IntersectionArea(b.rect, a.rect);
  }

  lemma QuotientForm(inter: real, union: real, threshold: real)
    requires union > 0.0
    ensures inter / union > threshold <==> inter > threshold * union
  {
    var q := inter / union;
    assert inter == q * union;
    assert q > threshold ==> (q - threshold) * union > 0.0;
    assert q <= threshold ==> (threshold - q) * union >= 0.0;
  }

  /** The product form says what the quotient of intersection and union says; where the
      union is empty, so that there is no quotient, there is no conflict. */
  lemma ConflictIsQuotient(a: Object, b: Object, threshold: real, agnostic: bool)
    requires HasExtent(a.rect) && HasExtent(b.rect)
    ensures Conflict(a, b, threshold, agnostic) <==>
            Competes(a, b, agnostic) && UnionArea(a.rect, b.rect) > 0.0
            && IntersectionArea(a.rect, b.rect) / UnionArea(a.rect, b.rect) > threshold
  {
    var inter, union := IntersectionArea(a.rect, b.rect), UnionArea(a.rect, b.rect);
    IntersectionWithin(a.rect, b.rect);
    IntersectionWithin(b.rect, a.rect);
    assert IntersectionArea(b.rect, a.rect) == inter;
    if union > 0.0 {
      QuotientForm(inter, union, threshold);
    } else {
      assert union == inter == 0.0;
    }
  }

  /** The intersection is larger than the threshold's share of the union. */
  predicate OverlapsMuch(a: Rect, b: Rect, threshold: real) {
    IntersectionArea(a, b) > threshold * (a.width * a.height + b.width * b.height - IntersectionArea(a, b))
  }

  lemma ConflictMeans(a: Object, b: Object, threshold: real)
    ensures Conflict(a, b, threshold, false) <==> a.category == b.category && OverlapsMuch(a.rect, b.rect, threshold)
    ensures Conflict(a, b, threshold, true) <==> OverlapsMuch(a.rect, b.rect, threshold)
  {
  }

  // ---------- greedy kernels of a conflict relation ----------

  /** conf(i, k): detection i conflicts with detection k. */
  type Relation = (int, int) -> bool

  predicate Kept(conf: Relation, picked: seq<int>, i: int) {
    forall a :: 0 <= a < |picked| ==> !conf(i, picked[a])
  }

  /** The picks after detection i, given those before it. */
  function PickNext(conf: Relation, p: seq<int>, i: int): seq<int> {
    if Kept(conf, p, i) then p + [i] else p
  }

  /** What greedy picking selects among the first n detections. */
  function Pick(conf: Relation, n: nat): (picked: seq<int>) {
    if n == 0 then [] else PickNext(conf, Pick(conf, n - 1), n - 1)
  }

  predicate Dropped(picked: seq<int>, i: int) {
    forall a :: 0 <= a < |picked| ==> picked[a] != i
  }

  function Last(picked: seq<int>): int { if picked == [] then -1 else picked[|picked| - 1] }

  /** Some earlier pick conflicts with detection i. */
  ghost predicate Beaten(conf: Relation, picked: seq<int>, i: int) {
    exists a :: 0 <= a < |picked| && picked[a] < i && conf(i, picked[a])
  }

  /** The kernel of the first n detections: indices ascend, no pick conflicts with an
      earlier one, and everything dropped conflicts with an earlier pick. */
  ghost predicate IsKernel(conf: Relation, n: nat, picked: seq<int>) {
    && (forall a :: 0 <= a < |picked| ==> 0 <= picked[a] < n)
    && (forall a, b :: 0 <= a < b < |picked| ==> picked[a] < picked[b] && !conf(picked[b], picked[a]))
    && (forall i :: 0 <= i < n && Dropped(picked, i) ==> Beaten(conf, picked, i))
  }

  lemma KernelGrows(conf: Relation, n: nat, p: seq<int>)
    requires IsKernel(conf, n, p) && Kept(conf, p, n)
    ensures IsKernel(conf, n + 1, p + [n])
  {
    var q := p + [n];
    assert q[|p|] == n && forall a :: 0 <= a < |p| ==> q[a] == p[a];
    forall i | 0 <= i < n + 1 && Dropped(q, i) ensures Beaten(conf, q, i) {
      assert Dropped(p, i) && i != q[|p|];
      var a :| 0 <= a < |p| && p[a] < i && conf(i, p[a]);
      assert q[a] == p[a];
    }
  }

  lemma KernelStays(conf: Relation, n: nat, p: seq<int>)
    requires IsKernel(conf, n, p) && !Kept(conf, p, n)
    ensures IsKernel(conf, n + 1, p)
  {
    var a :| 0 <= a < |p| && conf(n, p[a]);
    assert p[a] < n;
    assert Beaten(conf, p, n);
  }

  lemma NextIsKernel(conf: Relation, n: nat, p: seq<int>)
    requires IsKernel(conf, n, p)
    ensures IsKernel(conf, n + 1, PickNext(conf, p, n))
  {
    if Kept(conf, p, n) {
      KernelGrows(conf, n, p);
    } else {
      KernelStays(conf, n, p);
    }
  }

  lemma {:induction false} PickIsKernel(conf: Relation, n: nat)
    ensures IsKernel(conf, n, Pick(conf, n))
  {
    var picked := Pick(conf, n);
    if n > 0 {
      var p := Pick(conf, n - 1);
      PickIsKernel(conf, n - 1);
      NextIsKernel(conf, n - 1, p);
      assert picked == PickNext(conf, p, n - 1);
    }
  }

  /** A kernel of n detections whose last element is n-1, without that element. */
  lemma KernelWithLast(conf: Relation, n: nat, q: seq<int>)
    requires n > 0 && IsKernel(conf, n, q + [n - 1])
    ensures IsKernel(conf, n - 1, q) && Kept(conf, q, n - 1)
  {
    var picked := q + [n - 1];
    assert forall a :: 0 <= a < |q| ==> picked[a] == q[a];
    forall i | 0 <= i < n - 1 && Dropped(q, i) ensures Beaten(conf, q, i) {
      assert Dropped(picked, i);
      var a :| 0 <= a < |picked| && picked[a] < i && conf(i, picked[a]);
      assert q[a] == picked[a];
    }
    assert picked[|q|] == n - 1;
  }

  /** A kernel of n detections that does not end in n-1. */
  lemma KernelWithoutLast(conf: Relation, n: nat, q: seq<int>)
    requires n > 0 && IsKernel(conf, n, q) && (q == [] || q[|q| - 1] != n - 1)
    ensures IsKernel(conf, n - 1, q) && !Kept(conf, q, n - 1)
  {
    forall a | 0 <= a < |q| ensures q[a] < n - 1 {
      assert q[a] <= q[|q| - 1];
    }
    assert Dropped(q, n - 1);
  }

  /** Every kernel comes from one of fewer detections as greedy picking has it. */
  lemma KernelShrinks(conf: Relation, n: nat, picked: seq<int>) returns (q: seq<int>)
    requires n > 0 && IsKernel(conf, n, picked)
    ensures IsKernel(conf, n - 1, q) && picked == PickNext(conf, q, n - 1)
  {
    if Last(picked) == n - 1 {
      q := picked[..|picked| - 1];
      assert picked == q + [n - 1];
      KernelWithLast(conf, n, q);
    } else {
      q := picked;
      KernelWithoutLast(conf, n, q);
    }
  }

  /** There is only one kernel, so what is picked does not depend on how it is found. */
  lemma {:induction false} KernelIsUnique(conf: Relation, n: nat, picked: seq<int>)
    requires IsKernel(conf, n, picked)
    ensures picked == Pick(conf, n)
  {
    if n == 0 {
      assert Last(picked) == -1;
    } else {
      var q := KernelShrinks(conf, n, picked);
      KernelIsUnique(conf, n - 1, q);
    }
  }

  /** Picking among the first m detections yields a prefix of what picking among the
      first n yields. */
  lemma {:induction false} PicksArePrefix(conf: Relation, m: nat, n: nat)
    requires m <= n
    ensures Pick(conf, m) <= Pick(conf, n)
  {
    if m < n {
      PicksArePrefix(conf, m, n - 1);
    }
  }

  /** The conflict relation of a list of detections. */
  function Conflicts(objs: seq<Object>, threshold: real, agnostic: bool): Relation {
    (i: int, k: int) => 0 <= i < |objs| && 0 <= k < |objs| && Conflict(objs[i], objs[k], threshold, agnostic)
  }

  lemma {:induction false} PickReadsOnlyFirst(conf: Relation, conf': Relation, n: nat)
    requires forall i, k :: 0 <= k < i < n ==> conf(i, k) == conf'(i, k)
    ensures Pick(conf, n) == Pick(conf', n)
  {
    if n > 0 {
      PickReadsOnlyFirst(conf, conf', n - 1);
      var p := Pick(conf, n - 1);
      PickIsKernel(conf, n - 1);
      assert Kept(conf, p, n - 1) == Kept(conf', p, n - 1);
    }
  }

  /** Suppressing a prefix of the detections yields a prefix of the picks. */
  lemma SuppressingAPrefix(objs: seq<Object>, m: nat, threshold: real, agnostic: bool)
    requires m <= |objs|
    ensures Pick(Conflicts(objs[..m], threshold, agnostic), m) <= Pick(Conflicts(objs, threshold, agnostic), |objs|)
  {
    var conf, conf' := Conflicts(objs[..m], threshold, agnostic), Conflicts(objs, threshold, agnostic);
    forall i, k | 0 <= k < i < m ensures conf(i, k) == conf'(i, k) {
      assert objs[..m][i] == objs[i] && objs[..m][k] == objs[k];
    }
    PickReadsOnlyFirst(conf, conf', m);
    PicksArePrefix(conf', m, |objs|);
  }

  /** No two picks conflict, whichever of them comes first. */
  lemma NoPicksConflict(objs: seq<Object>, threshold: real, picked: seq<int>)
    requires IsKernel(Conflicts(objs, threshold, false), |objs|, picked)
    ensures forall a, b :: 0 <= a < |picked| && 0 <= b < |picked| && a != b ==>
              0 <= picked[a] < |objs| && 0 <= picked[b] < |objs|
              && !(objs[picked[a]].category == objs[picked[b]].category
                   && OverlapsMuch(objs[picked[a]].rect, objs[picked[b]].rect, threshold))
  {
    ghost var conf := Conflicts(objs, threshold, false);
    forall a, b | 0 <= a < |picked| && 0 <= b < |picked| && a != b
      ensures !(objs[picked[a]].category == objs[picked[b]].category
                && OverlapsMuch(objs[picked[a]].rect, objs[picked[b]].rect, threshold))
    {
      var c, d := if a < b then a else b, if a < b then b else a;
      assert !conf(picked[d], picked[c]);
      ConflictSymmetric(objs[picked[a]], objs[picked[b]], threshold, false);
      ConflictMeans(objs[picked[a]], objs[picked[b]], threshold);
    }
  }

  // ---------- the methods ----------

  method ComputeAreas(objs: seq<Object>) returns (areas: seq<real>)
    ensures |areas| == |objs| && forall k :: 0 <= k < |objs| ==> areas[k] == Area(objs[k].rect)
  {
    areas := [];
    for i := 0 to |objs|
      invariant |areas| == i && forall k :: 0 <= k < i ==> areas[k] == Area(objs[k].rect)
    {
      areas := areas + [Area(objs[i].rect)];
    }
  }

  /** One test of the inner loop. */
  method Suppresses(a: Object, b: Object, areaA: real, areaB: real, threshold: real, agnostic: bool)
    returns (drop: bool)
    requires areaA == Area(a.rect) && areaB == Area(b.rect)
    ensures drop <==> Conflict(a, b, threshold, agnostic)
  {
    if !agnostic && a.category != b.category {
      return false;
    }
    var interArea := IntersectionArea(a.rect, b.rect);
    var unionArea := areaA + areaB - interArea;
    return interArea > threshold * unionArea;
  }

  method NmsSortedBoxes(objs: seq<Object>, threshold: real, agnostic: bool) returns (picked: seq<int>)
    ensures picked == Pick(Conflicts(objs, threshold, agnostic), |objs|)
  {
    ghost var conf := Conflicts(objs, threshold, agnostic);
    picked := [];
    var n := |objs|;
    var areas := ComputeAreas(objs);
    for i := 0 to n
      invariant picked == Pick(conf, i)
      invariant forall a :: 0 <= a < |picked| ==> 0 <= picked[a] < i
    {
      var keep := true;
      for j := 0 to |picked|
        invariant keep <==> forall a :: 0 <= a < j ==> !conf(i, picked[a])
      {
        var k := picked[j];
        var drop := Suppresses(objs[i], objs[k], areas[i], areas[k], threshold, agnostic);
        assert drop == conf(i, picked[j]);
        if drop {
          keep := false;
        }
      }
      assert keep <==> Kept(conf, picked, i);
      if keep {
        picked := picked + [i];
      }
    }
  }

  /** The end of detection: proposals are sorted by descending score, then suppressed.
      Every proposal dropped overlaps a surviving one of the same category whose score
      is at least as high. */
  method Detect(proposals: array<Object>, threshold: real) returns (picked: seq<int>)
    modifies proposals
    ensures multiset(proposals[..]) == multiset(old(proposals[..]))
    ensures Descending(proposals[..], 0, proposals.Length - 1)
    ensures IsKernel(Conflicts(proposals[..], threshold, false), proposals.Length, picked)
    ensures forall a, b :: 0 <= a < |picked| && 0 <= b < |picked| && a != b ==>
              0 <= picked[a] < proposals.Length && 0 <= picked[b] < proposals.Length
              && !(proposals[picked[a]].category == proposals[picked[b]].category
                   && OverlapsMuch(proposals[picked[a]].rect, proposals[picked[b]].rect, threshold))
    ensures forall i :: 0 <= i < proposals.Length && i !in picked ==>
              exists a :: 0 <= a < |picked| && 0 <= picked[a] < i
                          && proposals[i].category == proposals[picked[a]].category
                          && OverlapsMuch(proposals[i].rect, proposals[picked[a]].rect, threshold)
                          && proposals[picked[a]].prob >= proposals[i].prob
  {
    SortAll(proposals);
    ghost var objs := proposals[..];
    picked := NmsSortedBoxes(proposals[..], threshold, false);
    ghost var conf := Conflicts(objs, threshold, false);
    PickIsKernel(conf, |objs|);
    NoPicksConflict(objs, threshold, picked);
    forall i | 0 <= i < proposals.Length && i !in picked
      ensures exists a :: 0 <= a < |picked| && 0 <= picked[a] < i
                          && proposals[i].category == proposals[picked[a]].category
                          && OverlapsMuch(proposals[i].rect, proposals[picked[a]].rect, threshold)
                          && proposals[picked[a]].prob >= proposals[i].prob
    {
      assert Dropped(picked, i) && Beaten(conf, picked, i);
      var a :| 0 <= a < |picked| && picked[a] < i && conf(i, picked[a]);
      assert objs[picked[a]].prob >= objs[i].prob;
      ConflictMeans(objs[i], objs[picked[a]], threshold);
    }
  }
}
