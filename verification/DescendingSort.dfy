/** The in-place quicksort that orders detections by descending score.  Each run of
    the algorithm is described by a function on sequences; the method over an array
    is proved to compute it. */
module DescendingSort {

  datatype Rect = Rect(x: real, y: real, width: real, height: real)

  datatype Object = Object(rect: Rect, category: int, prob: real)

  /** Position l to r (inclusive) is the part being sorted. */
  predicate IsPart(s: seq<Object>, l: int, r: int) { 0 <= l && r < |s| && l <= r + 1 }

  predicate Descending(s: seq<Object>, l: int, r: int)
    requires IsPart(s, l, r)
  {
    forall j, k :: l <= j < k <= r ==> s[j].prob >= s[k].prob
  }

  function Swap(s: seq<Object>, i: int, j: int): seq<Object>
    requires 0 <= i < |s| && 0 <= j < |s|
  {
    s[i := s[j]][j := s[i]]
  }

  // ---------- one partition ----------

  /** While the two scans have not met, each is stopped by some element inside the part. */
  predicate Guarded(s: seq<Object>, l: int, r: int, i: int, j: int, p: real)
    requires IsPart(s, l, r)
  {
    && l <= i <= r + 1 && l - 1 <= j <= r
    && (i <= j ==> (exists k :: i <= k <= r && s[k].prob <= p) && (exists k :: l <= k <= j && s[k].prob >= p))
  }

  function ScanUp(s: seq<Object>, r: int, i: int, p: real): (i': int)
    requires 0 <= i && r < |s| && exists k :: i <= k <= r && s[k].prob <= p
    ensures i <= i' <= r && s[i'].prob <= p && forall k :: i <= k < i' ==> s[k].prob > p
    decreases r - i
  {
    if s[i].prob > p then ScanUp(s, r, i + 1, p) else i
  }

  function ScanDown(s: seq<Object>, l: int, j: int, p: real): (j': int)
    requires 0 <= l && j < |s| && exists k :: l <= k <= j && s[k].prob >= p
    ensures l <= j' <= j && s[j'].prob >= p && forall k :: j' < k <= j ==> s[k].prob < p
    decreases j - l
  {
    if s[j].prob < p then ScanDown(s, l, j - 1, p) else j
  }

  datatype Split = Split(s: seq<Object>, i: int, j: int)

  /** One iteration of the partition loop: both scans, then an exchange unless they
      have met. */
  function Exchange(s: seq<Object>, l: int, r: int, i: int, j: int, p: real): (q: Split)
    requires IsPart(s, l, r) && Guarded(s, l, r, i, j, p) && i <= j
    ensures |q.s| == |s| && Guarded(q.s, l, r, q.i, q.j, p)
    ensures i <= q.i && q.j <= j && ((q.i > i && q.j < j) || q.i > q.j)
  {
    var i1, j1 := ScanUp(s, r, i, p), ScanDown(s, l, j, p);
    if i1 <= j1 then
      var s1 := Swap(s, i1, j1);
      assert i1 + 1 <= j1 - 1 ==> s1[j1].prob <= p && s1[i1].prob >= p;
      Split(s1, i1 + 1, j1 - 1)
    else Split(s, i1, j1)
  }

  /** The partition loop from the state (s, i, j) on. */
  function Partition(s: seq<Object>, l: int, r: int, i: int, j: int, p: real): (q: Split)
    requires IsPart(s, l, r) && Guarded(s, l, r, i, j, p)
    ensures |q.s| == |s|
    ensures i <= q.i <= r + 1 && l - 1 <= q.j <= j && q.j < q.i
    decreases j - i
  {
    if i > j then Split(s, i, j)
    else
      var q := Exchange(s, l, r, i, j, p);
      Partition(q.s, l, r, q.i, q.j, p)
  }

  /** Nothing outside the part changes, and inside elements are only moved. */
  predicate Rearranged(s: seq<Object>, t: seq<Object>, l: int, r: int)
    requires IsPart(s, l, r)
  {
    && |t| == |s|
    && (forall k :: 0 <= k < |s| && !(l <= k <= r) ==> t[k] == s[k])
    && multiset(t[l..r + 1]) == multiset(s[l..r + 1])
  }

  lemma SwapRearranges(s: seq<Object>, l: int, r: int, i: int, j: int)
    requires IsPart(s, l, r) && l <= i <= r && l <= j <= r
    ensures Rearranged(s, Swap(s, i, j), l, r)
  {
    var t := Swap(s, i, j);
    var u, v := s[l..r + 1], t[l..r + 1];
    assert v == u[i - l := u[j - l]][j - l := u[i - l]];
  }

  lemma RearrangedTransitive(s: seq<Object>, t: seq<Object>, u: seq<Object>, l: int, r: int)
    requires IsPart(s, l, r) && Rearranged(s, t, l, r) && Rearranged(t, u, l, r)
    ensures Rearranged(s, u, l, r)
  {
  }

  /** What the loop has separated so far. */
  predicate Separated(s: seq<Object>, l: int, r: int, i: int, j: int, p: real)
    requires IsPart(s, l, r) && l <= i <= r + 1 && l - 1 <= j <= r
  {
    && (forall k :: l <= k < i ==> s[k].prob >= p)
    && (forall k :: j < k <= r ==> s[k].prob <= p)
  }

  lemma ExchangeSeparates(s: seq<Object>, l: int, r: int, i: int, j: int, p: real)
    requires IsPart(s, l, r) && Guarded(s, l, r, i, j, p) && i <= j && Separated(s, l, r, i, j, p)
    ensures var q := Exchange(s, l, r, i, j, p);
            Rearranged(s, q.s, l, r) && Separated(q.s, l, r, q.i, q.j, p)
  {
    var i1, j1 := ScanUp(s, r, i, p), ScanDown(s, l, j, p);
    if i1 <= j1 {
      SwapRearranges(s, l, r, i1, j1);
    }
  }

  lemma {:induction false} PartitionSeparates(s: seq<Object>, l: int, r: int, i: int, j: int, p: real)
    requires IsPart(s, l, r) && Guarded(s, l, r, i, j, p) && Separated(s, l, r, i, j, p)
    ensures var q := Partition(s, l, r, i, j, p);
            Rearranged(s, q.s, l, r) && Separated(q.s, l, r, q.i, q.j, p)
    decreases j - i
  {
    if i <= j {
      var q := Exchange(s, l, r, i, j, p);
      ExchangeSeparates(s, l, r, i, j, p);
      PartitionSeparates(q.s, l, r, q.i, q.j, p);
      RearrangedTransitive(s, q.s, Partition(q.s, l, r, q.i, q.j, p).s, l, r);
    }
  }

  // ---------- the sort ----------

  function Pivot(s: seq<Object>, l: int, r: int): real
    requires IsPart(s, l, r) && l <= r
  {
    s[(l + r) / 2].prob
  }

  lemma PivotGuards(s: seq<Object>, l: int, r: int)
    requires IsPart(s, l, r) && l <= r
    ensures Guarded(s, l, r, l, r, Pivot(s, l, r))
  {
    assert s[(l + r) / 2].prob <= Pivot(s, l, r);
  }

  /** The first exchange always happens, so both sections are smaller than the part. */
  lemma SectionsAreSmaller(s: seq<Object>, l: int, r: int)
    requires IsPart(s, l, r) && l <= r && Guarded(s, l, r, l, r, Pivot(s, l, r))
    ensures var q := Partition(s, l, r, l, r, Pivot(s, l, r));
            q.i > l && q.j < r
  {
    var p := Pivot(s, l, r);
    var i1, j1 := ScanUp(s, r, l, p), ScanDown(s, l, r, p);
    assert i1 <= (l + r) / 2 <= j1;
  }

  /** The partition of a whole part around its middle element. */
  function Halves(s: seq<Object>, l: int, r: int): (q: Split)
    requires IsPart(s, l, r) && l <= r
    ensures |q.s| == |s| && l < q.i <= r + 1 && l - 1 <= q.j < r && q.j < q.i
  {
    PivotGuards(s, l, r);
    SectionsAreSmaller(s, l, r);
    Partition(s, l, r, l, r, Pivot(s, l, r))
  }

  lemma HalvesSeparate(s: seq<Object>, l: int, r: int)
    requires IsPart(s, l, r) && l <= r
    ensures var q := Halves(s, l, r); Rearranged(s, q.s, l, r) && Separated(q.s, l, r, q.i, q.j, Pivot(s, l, r))
  {
    PivotGuards(s, l, r);
    PartitionSeparates(s, l, r, l, r, Pivot(s, l, r));
  }

  function Sort(s: seq<Object>, l: int, r: int): (t: seq<Object>)
    requires IsPart(s, l, r)
    ensures |t| == |s|
    decreases r - l
  {
    if l < r then
      var q := Halves(s, l, r);
      Sort(Sort(q.s, l, q.j), q.i, r)
    else s
  }

  /** An element of a rearranged part was in the part before. */
  lemma FromPart(s: seq<Object>, t: seq<Object>, l: int, r: int, k: int) returns (m: int)
    requires IsPart(s, l, r) && Rearranged(s, t, l, r) && l <= k <= r
    ensures l <= m <= r && s[m] == t[k]
  {
    var u, v := s[l..r + 1], t[l..r + 1];
    assert v[k - l] in multiset(v);
    assert v[k - l] in u;
    m :| 0 <= m < |u| && u[m] == v[k - l];
    m := l + m;
  }

  /** Rearranging a section rearranges the whole part. */
  lemma SectionRearranges(s: seq<Object>, t: seq<Object>, l: int, r: int, l': int, r': int)
    requires IsPart(s, l, r) && l <= l' <= r' + 1 && r' <= r && Rearranged(s, t, l', r')
    ensures Rearranged(s, t, l, r)
  {
    assert s[l..r + 1] == s[l..l'] + s[l'..r' + 1] + s[r' + 1..r + 1];
    assert t[l..r + 1] == t[l..l'] + t[l'..r' + 1] + t[r' + 1..r + 1];
    assert s[l..l'] == t[l..l'] && s[r' + 1..r + 1] == t[r' + 1..r + 1];
  }

  /** Rearranging one section keeps the part separated. */
  lemma SectionStaysSeparated(s: seq<Object>, t: seq<Object>, l: int, r: int, i: int, j: int, p: real, l': int, r': int)
    requires IsPart(s, l, r) && l <= i <= r + 1 && l - 1 <= j <= r && j < i && Separated(s, l, r, i, j, p)
    requires (l' == l && r' == j) || (l' == i && r' == r)
    requires Rearranged(s, t, l', r')
    ensures Separated(t, l, r, i, j, p)
  {
    forall k | l <= k < i ensures t[k].prob >= p {
      if l' <= k <= r' {
        var m := FromPart(s, t, l', r', k);
      }
    }
    forall k | j < k <= r ensures t[k].prob <= p {
      if l' <= k <= r' {
        var m := FromPart(s, t, l', r', k);
      }
    }
  }

  /** Two sorted sections, separated by the pivot, make a sorted part. */
  lemma SectionsSorted(u: seq<Object>, l: int, r: int, i: int, j: int, p: real)
    requires IsPart(u, l, r) && l <= i <= r + 1 && l - 1 <= j <= r && j < i && Separated(u, l, r, i, j, p)
    requires Descending(u, l, j) && Descending(u, i, r)
    ensures Descending(u, l, r)
  {
  }

  /** Sorting one section keeps what is known about the whole part. */
  lemma AfterSection(s0: seq<Object>, s: seq<Object>, t: seq<Object>, l: int, r: int, i: int, j: int, p: real,
                     l': int, r': int)
    requires IsPart(s, l, r) && l <= i <= r + 1 && l - 1 <= j <= r && j < i && Separated(s, l, r, i, j, p)
    requires |s0| == |s| && Rearranged(s0, s, l, r)
    requires (l' == l && r' == j) || (l' == i && r' == r)
    requires Rearranged(s, t, l', r')
    ensures Rearranged(s0, t, l, r) && Separated(t, l, r, i, j, p)
  {
    SectionRearranges(s, t, l, r, l', r');
    SectionStaysSeparated(s, t, l, r, i, j, p, l', r');
    RearrangedTransitive(s0, s, t, l, r);
  }

  /** The sort rearranges its part into descending order. */
  lemma {:induction false} SortSorts(s: seq<Object>, l: int, r: int)
    requires IsPart(s, l, r)
    ensures Rearranged(s, Sort(s, l, r), l, r) && Descending(Sort(s, l, r), l, r)
    decreases r - l
  {
    if l < r {
      var p := Pivot(s, l, r);
      var q := Halves(s, l, r);
      HalvesSeparate(s, l, r);
      var t := Sort(q.s, l, q.j);
      SortSorts(q.s, l, q.j);
      AfterSection(s, q.s, t, l, r, q.i, q.j, p, l, q.j);
      var u := Sort(t, q.i, r);
      SortSorts(t, q.i, r);
      AfterSection(s, t, u, l, r, q.i, q.j, p, q.i, r);
      SectionKept(t, u, l, q.j, q.i, r);
      SectionsSorted(u, l, r, q.i, q.j, p);
    }
  }

  /** Rearranging one section leaves the other sorted. */
  lemma SectionKept(t: seq<Object>, u: seq<Object>, l: int, j: int, i: int, r: int)
    requires IsPart(t, l, j) && IsPart(t, i, r) && j < i && Descending(t, l, j) && Rearranged(t, u, i, r)
    ensures IsPart(u, l, j) && Descending(u, l, j)
  {
  }

  // ---------- sections are independent ----------

  /** s and t agree on the part. */
  predicate SamePart(s: seq<Object>, t: seq<Object>, l: int, r: int) {
    |s| == |t| && IsPart(s, l, r) && forall k :: l <= k <= r ==> s[k] == t[k]
  }

  predicate SameOutside(s: seq<Object>, t: seq<Object>, l: int, r: int) {
    |s| == |t| && forall k :: 0 <= k < |s| && !(l <= k <= r) ==> s[k] == t[k]
  }

  lemma {:induction false} ScansAreLocal(s: seq<Object>, t: seq<Object>, l: int, r: int, i: int, j: int, p: real)
    requires SamePart(s, t, l, r) && Guarded(s, l, r, i, j, p) && i <= j
    ensures Guarded(t, l, r, i, j, p)
    ensures ScanUp(s, r, i, p) == ScanUp(t, r, i, p) && ScanDown(s, l, j, p) == ScanDown(t, l, j, p)
  {
    var k :| i <= k <= r && s[k].prob <= p;
    assert t[k].prob <= p;
    var m :| l <= m <= j && s[m].prob >= p;
    assert t[m].prob >= p;
  }

  lemma ExchangeIsLocal(s: seq<Object>, t: seq<Object>, l: int, r: int, i: int, j: int, p: real)
    requires SamePart(s, t, l, r) && Guarded(s, l, r, i, j, p) && Guarded(t, l, r, i, j, p) && i <= j
    ensures var q, q' := Exchange(s, l, r, i, j, p), Exchange(t, l, r, i, j, p);
            && q.i == q'.i && q.j == q'.j && SamePart(q.s, q'.s, l, r)
            && SameOutside(s, q.s, l, r) && SameOutside(t, q'.s, l, r)
  {
    ScansAreLocal(s, t, l, r, i, j, p);
  }

  lemma {:induction false} PartitionIsLocal(s: seq<Object>, t: seq<Object>, l: int, r: int, i: int, j: int, p: real)
    requires SamePart(s, t, l, r) && Guarded(s, l, r, i, j, p) && Guarded(t, l, r, i, j, p)
    ensures var q, q' := Partition(s, l, r, i, j, p), Partition(t, l, r, i, j, p);
            && q.i == q'.i && q.j == q'.j && SamePart(q.s, q'.s, l, r)
            && SameOutside(s, q.s, l, r) && SameOutside(t, q'.s, l, r)
    decreases j - i
  {
    if i <= j {
      var q, q' := Exchange(s, l, r, i, j, p), Exchange(t, l, r, i, j, p);
      ExchangeIsLocal(s, t, l, r, i, j, p);
      PartitionIsLocal(q.s, q'.s, l, r, q.i, q.j, p);
      SameOutsideTransitive(s, q.s, Partition(q.s, l, r, q.i, q.j, p).s, l, r);
      SameOutsideTransitive(t, q'.s, Partition(q'.s, l, r, q.i, q.j, p).s, l, r);
    }
  }

  lemma SameOutsideTransitive(s: seq<Object>, t: seq<Object>, u: seq<Object>, l: int, r: int)
    requires SameOutside(s, t, l, r) && SameOutside(t, u, l, r)
    ensures SameOutside(s, u, l, r)
  {
  }

  lemma HalvesAreLocal(s: seq<Object>, t: seq<Object>, l: int, r: int)
    requires SamePart(s, t, l, r) && l <= r
    ensures var q, q' := Halves(s, l, r), Halves(t, l, r);
            && q.i == q'.i && q.j == q'.j && SamePart(q.s, q'.s, l, r)
            && SameOutside(s, q.s, l, r) && SameOutside(t, q'.s, l, r)
  {
    PivotGuards(s, l, r);
    PivotGuards(t, l, r);
    PartitionIsLocal(s, t, l, r, l, r, Pivot(s, l, r));
  }

  /** The sort writes nothing outside its part. */
  lemma {:induction false} SortWritesPart(s: seq<Object>, l: int, r: int)
    requires IsPart(s, l, r)
    ensures SameOutside(s, Sort(s, l, r), l, r)
  {
    SortSorts(s, l, r);
  }

  /** The sort reads nothing outside its part. */
  lemma {:induction false} SortReadsPart(s: seq<Object>, t: seq<Object>, l: int, r: int)
    requires SamePart(s, t, l, r)
    ensures SamePart(Sort(s, l, r), Sort(t, l, r), l, r)
    decreases r - l, 0
  {
    if l < r {
      HalvesAreLocal(s, t, l, r);
      var q, q' := Halves(s, l, r), Halves(t, l, r);
      var u, u' := Sort(q.s, l, q.j), Sort(q'.s, l, q.j);
      SectionAgrees(q.s, q'.s, u, u', l, r, l, q.j);
      SectionAgrees(u, u', Sort(u, q.i, r), Sort(u', q.i, r), l, r, q.i, r);
    }
  }

  lemma {:induction false} SectionAgrees(s: seq<Object>, t: seq<Object>, s': seq<Object>, t': seq<Object>, l: int, r: int, l': int, r': int)
    requires SamePart(s, t, l, r) && l <= l' <= r' + 1 && r' <= r && r' - l' < r - l
    requires s' == Sort(s, l', r') && t' == Sort(t, l', r')
    ensures SamePart(s', t', l, r)
    decreases r' - l', 1
  {
    SortReadsPart(s, t, l', r');
    SortWritesPart(s, l', r');
    SortWritesPart(t, l', r');
  }

  /** Two disjoint sections may be sorted in either order. */
  lemma SectionsCommute(s: seq<Object>, l: int, j: int, i: int, r: int)
    requires IsPart(s, l, j) && IsPart(s, i, r) && j < i
    ensures Sort(Sort(s, l, j), i, r) == Sort(Sort(s, i, r), l, j)
  {
    var a, b := Sort(s, l, j), Sort(s, i, r);
    SortWritesPart(s, l, j);
    SortWritesPart(s, i, r);
    SortReadsPart(a, s, i, r);
    SortReadsPart(b, s, l, j);
    SortWritesPart(a, i, r);
    SortWritesPart(b, l, j);
    var ab, ba := Sort(a, i, r), Sort(b, l, j);
    assert forall k :: 0 <= k < |s| ==> ab[k] == ba[k];
  }

  // ---------- the method ----------

  /** The partition loop, in place. */
  method PartitionInPlace(a: array<Object>, left: int, right: int) returns (i: int, j: int)
    requires 0 <= left <= right < a.Length
    modifies a
    ensures Split(a[..], i, j) == Halves(old(a[..]), left, right)
  {
    i, j := left, right;
    var p := a[(left + right) / 2].prob;
    PivotGuards(a[..], left, right);
    ghost var q := Partition(a[..], left, right, i, j, p);
    while i <= j
      invariant Guarded(a[..], left, right, i, j, p)
      invariant Partition(a[..], left, right, i, j, p) == q
      decreases j - i
    {
      i, j := ExchangeInPlace(a, left, right, i, j, p);
    }
  }

  /** The body of the partition loop. */
  method ExchangeInPlace(a: array<Object>, left: int, right: int, i0: int, j0: int, p: real) returns (i: int, j: int)
    requires 0 <= left <= right < a.Length && Guarded(a[..], left, right, i0, j0, p) && i0 <= j0
    modifies a
    ensures Split(a[..], i, j) == Exchange(old(a[..]), left, right, i0, j0, p)
  {
    i := ScanUpInPlace(a, right, i0, p);
    j := ScanDownInPlace(a, left, j0, p);
    if i <= j {
      SwapInPlace(a, i, j);
      i := i + 1;
      j := j - 1;
    }
  }

  method SwapInPlace(a: array<Object>, i: int, j: int)
    requires 0 <= i < a.Length && 0 <= j < a.Length
    modifies a
    ensures a[..] == Swap(old(a[..]), i, j)
  {
    a[i], a[j] := a[j], a[i];
  }

  method ScanUpInPlace(a: array<Object>, right: int, start: int, p: real) returns (i: int)
    requires 0 <= start && right < a.Length && exists k :: start <= k <= right && a[..][k].prob <= p
    ensures i == ScanUp(a[..], right, start, p)
  {
    i := start;
    while a[i].prob > p
      invariant start <= i <= right && exists k :: i <= k <= right && a[..][k].prob <= p
      invariant ScanUp(a[..], right, i, p) == ScanUp(a[..], right, start, p)
      decreases right - i
    {
      i := i + 1;
    }
  }

  method ScanDownInPlace(a: array<Object>, left: int, start: int, p: real) returns (j: int)
    requires 0 <= left && start < a.Length && exists k :: left <= k <= start && a[..][k].prob >= p
    ensures j == ScanDown(a[..], left, start, p)
  {
    j := start;
    while a[j].prob < p
      invariant left <= j <= start && exists k :: left <= k <= j && a[..][k].prob >= p
      invariant ScanDown(a[..], left, j, p) == ScanDown(a[..], left, start, p)
      decreases j - left
    {
      j := j - 1;
    }
  }

  /** Sorts the part in place.  The two sections run in parallel in the program; here
      either may go first, with the same result. */
  method SortInPlace(a: array<Object>, left: int, right: int)
    requires 0 <= left <= right < a.Length
    modifies a
    ensures a[..] == Sort(old(a[..]), left, right)
    decreases right - left
  {
    if left == right {
      OneElement(a[..], left);
    }
    var i, j := PartitionInPlace(a, left, right);
    SectionsCommute(a[..], left, j, i, right);
    if * {
      if left < j {
        SortInPlace(a, left, j);
      }
      if i < right {
        SortInPlace(a, i, right);
      }
    } else {
      if i < right {
        SortInPlace(a, i, right);
      }
      if left < j {
        SortInPlace(a, left, j);
      }
    }
  }

  /** Partitioning a single element does nothing. */
  lemma OneElement(s: seq<Object>, l: int)
    requires 0 <= l < |s|
    ensures Halves(s, l, l).s == s
  {
    PivotGuards(s, l, l);
    assert Swap(s, l, l) == s;
    assert Exchange(s, l, l, l, l, Pivot(s, l, l)) == Split(s, l + 1, l - 1);
    assert Partition(s, l, l, l + 1, l - 1, Pivot(s, l, l)) == Split(s, l + 1, l - 1);
  }

  /** The whole vector, which may be empty. */
  method SortAll(a: array<Object>)
    modifies a
    ensures a[..] == Sort(old(a[..]), 0, a.Length - 1)
    ensures multiset(a[..]) == multiset(old(a[..])) && Descending(a[..], 0, a.Length - 1)
  {
    ghost var s := a[..];
    SortSorts(s, 0, a.Length - 1);
    assert s[0..a.Length] == s;
    if a.Length == 0 {
      return;
    }
    SortInPlace(a, 0, a.Length - 1);
    assert a[..][0..a.Length] == a[..];
  }
}
