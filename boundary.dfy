/** The scan-to-boundary pipeline of the two adaptive scripts: wrap the angles into
    [-pi, pi), replace invalid ranges, sort by angle, repeat the sorted scan one turn
    below and one turn above, interpolate onto 720 evenly spaced angles, clip. */
module Boundary {

  import opened RealArith

  /** np.pi, as the real number the float64 constant denotes to 16 digits. */
  const PI: real := 3.141592653589793

  /** The number of angles of the dense theta grid (0.5 degree resolution). */
  const GRID_SIZE: nat := 720

  // ---------------------------------------------------------------------------
  // Angle normalisation: ((angles + pi) % (2 pi)) - pi

  /** Python's float %, whose remainder takes the sign of the divisor. */
  function PyMod(x: real, m: real): (r: real)
    requires 0.0 < m
    ensures 0.0 <= r < m
    ensures 0.0 <= x < m ==> r == x
  {
    var f := (x / m).Floor;
    FloorBounds(x, m);
    x - (f as real) * m
  }

  /** floor(x / m) * m <= x < floor(x / m) * m + m, and floor(x / m) == 0 on [0, m). */
  lemma FloorBounds(x: real, m: real)
    requires 0.0 < m
    ensures var f := (x / m).Floor as real; f * m <= x < f * m + m
    ensures 0.0 <= x < m ==> (x / m).Floor == 0
  {
    var q := x / m;
    var f := q.Floor as real;
    assert q * m == x;
    FloorScale(x, q, f, m);
    if 0.0 <= x < m {
      QuotientMonotone(0.0, x, m);
      QuotientStrict(x, m, m);
      Quotient(0.0, m, 0.0);
      Quotient(m, m, 1.0);
    }
  }

  lemma FloorScale(x: real, q: real, f: real, m: real)
    requires 0.0 < m && f <= q < f + 1.0 && q * m == x
    ensures f * m <= x < f * m + m
  {
    ScaleBound(f, q, m);
    ScaleBelow(x, q, f + 1.0, m);
    assert (f + 1.0) * m == f * m + m;
  }

  lemma ScaleBelow(x: real, q: real, g: real, m: real)
    requires 0.0 < m && q < g && q * m == x
    ensures x < g * m
  {
    ProductSign(g - q, m);
    assert (g - q) * m == g * m - q * m;
  }

  /** One angle, wrapped into [-pi, pi). */
  function WrapAngle(a: real): (w: real)
    ensures -PI <= w < PI
    ensures -PI <= a < PI ==> w == a
  {
    PyMod(a + PI, 2.0 * PI) - PI
  }

  /** Wrapping ignores whole turns: angles a whole number of turns apart wrap alike. */
  lemma WrapPeriodic(a: real, k: int)
    ensures WrapAngle(a + (k as real) * (2.0 * PI)) == WrapAngle(a)
  {
    var m := 2.0 * PI;
    var x := a + PI;
    var y := x + (k as real) * m;
    assert y / m == x / m + (k as real);
    assert (y / m).Floor == (x / m).Floor + k;
  }

  /** The vectorised wrap over the whole scan. */
  function WrapAll(angles: seq<real>): (ws: seq<real>)
    ensures |ws| == |angles|
    ensures forall k :: 0 <= k < |ws| ==> -PI <= ws[k] < PI
    ensures forall k :: 0 <= k < |ws| ==> ws[k] == WrapAngle(angles[k])
  {
    seq(|angles|, k requires 0 <= k < |angles| => WrapAngle(angles[k]))
  }

  // ---------------------------------------------------------------------------
  // Range cleaning: ranges_clean[(r <= 0) | (r > rmax)] = rmax

  /** A reading the scripts keep: positive and not beyond the display range. */
  predicate ValidRange(r: real, rmax: real) { 0.0 < r <= rmax }

  /** One entry after the masked assignment. */
  function CleanRange(r: real, rmax: real): (c: real)
    ensures 0.0 < rmax ==> ValidRange(c, rmax)
    ensures ValidRange(r, rmax) ==> c == r
    ensures !ValidRange(r, rmax) ==> c == rmax
  {
    if r <= 0.0 || r > rmax then rmax else r
  }

  /** The whole cleaned copy: for a positive limit every entry is a valid range, the
      valid readings are kept where they were, and every other reading becomes rmax. */
  function CleanAll(ranges: seq<real>, rmax: real): (cs: seq<real>)
    ensures |cs| == |ranges|
    ensures 0.0 < rmax ==> forall k :: 0 <= k < |cs| ==> ValidRange(cs[k], rmax)
    ensures forall k :: 0 <= k < |cs| && ValidRange(ranges[k], rmax) ==> cs[k] == ranges[k]
    ensures forall k :: 0 <= k < |cs| && !ValidRange(ranges[k], rmax) ==> cs[k] == rmax
    ensures forall k :: 0 <= k < |cs| ==> cs[k] == CleanRange(ranges[k], rmax)
  {
    seq(|ranges|, k requires 0 <= k < |ranges| => CleanRange(ranges[k], rmax))
  }

  /** ranges_clean[invalid_mask] = rmax, applied to the copy in place. */
  method CleanInPlace(a: array<real>, rmax: real)
    modifies a
    ensures a[..] == CleanAll(old(a[..]), rmax)
  {
    var i := 0;
    while i < a.Length
      invariant 0 <= i <= a.Length
      invariant forall k :: 0 <= k < i ==> a[k] == CleanRange(old(a[k]), rmax)
      invariant forall k :: i <= k < a.Length ==> a[k] == old(a[k])
    {
      if a[i] <= 0.0 || a[i] > rmax {
        a[i] := rmax;
      }
      i := i + 1;
    }
  }

  // ---------------------------------------------------------------------------
  // np.argsort and fancy indexing

  function Iota(n: nat): (s: seq<int>)
    ensures |s| == n
    ensures forall k :: 0 <= k < n ==> s[k] == k
  {
    if n == 0 then [] else Iota(n - 1) + [n - 1]
  }

  /** idx lists 0 .. n-1, each exactly once, in some order. */
  predicate IsPermutation(idx: seq<int>, n: nat) {
    multiset(idx) == multiset(Iota(n))
  }

  predicate InBounds(idx: seq<int>, n: nat) {
    forall k :: 0 <= k < |idx| ==> 0 <= idx[k] < n
  }

  /** s[idx], numpy's fancy indexing. */
  function Gather<T>(s: seq<T>, idx: seq<int>): (g: seq<T>)
    requires InBounds(idx, |s|)
    ensures |g| == |idx|
    ensures forall k :: 0 <= k < |idx| ==> g[k] == s[idx[k]]
  {
    seq(|idx|, k requires 0 <= k < |idx| => s[idx[k]])
  }

  predicate Sorted(s: seq<real>) {
    forall p, q :: 0 <= p < q < |s| ==> s[p] <= s[q]
  }

  /** What np.argsort promises: a permutation of the indices that sorts the keys. The
      order among equal keys is left open (numpy's default sort is not stable). */
  predicate IsSortingPermutation(keys: seq<real>, idx: seq<int>) {
    |idx| == |keys| && IsPermutation(idx, |keys|) && InBounds(idx, |keys|)
    && Sorted(Gather(keys, idx))
  }

  lemma {:induction false} IotaMembers(n: nat, x: int)
    ensures x in multiset(Iota(n)) <==> 0 <= x < n
  {
    if n > 0 {
      IotaMembers(n - 1, x);
      assert Iota(n) == Iota(n - 1) + [n - 1];
    }
  }

  lemma PermutationInBounds(idx: seq<int>, n: nat)
    requires IsPermutation(idx, n)
    ensures InBounds(idx, n) && |idx| == n
  {
    forall k | 0 <= k < |idx|
      ensures 0 <= idx[k] < n
    {
      assert idx[k] in multiset(idx);
      IotaMembers(n, idx[k]);
    }
    assert |multiset(idx)| == |multiset(Iota(n))|;
  }

  /** Sorting by angle: the insertion sort stands in for numpy's sort, whose only
      promise the model uses is IsSortingPermutation. */
  method ArgSort(keys: seq<real>) returns (idx: seq<int>)
    ensures IsSortingPermutation(keys, idx)
  {
    var n := |keys|;
    var a := new int[n](k requires 0 <= k < n => k);
    assert a[..] == Iota(n);
    var i := 0;
    while i < n
      invariant 0 <= i <= n
      invariant IndexArray(a, keys) && SortedBy(keys, a[..], i)
    {
      Insert(a, keys, i);
      i := i + 1;
    }
    idx := a[..];
    PermutationInBounds(idx, n);
  }

  /** a holds a permutation of the indices of keys. */
  ghost predicate IndexArray(a: array<int>, keys: seq<real>)
    reads a
  {
    a.Length == |keys| && InBounds(a[..], |keys|) && IsPermutation(a[..], |keys|)
  }

  /** The keys of the first m indices of s are in order. */
  ghost predicate SortedBy(keys: seq<real>, s: seq<int>, m: int) {
    0 <= m <= |s| && InBounds(s, |keys|)
    && forall p, q :: 0 <= p < q < m ==> keys[s[p]] <= keys[s[q]]
  }

  /** Insertion of s[j] into s[..i + 1] under way: the prefix is in order apart from
      position j, and s[j] is not above anything after it. */
  ghost predicate Sinking(keys: seq<real>, s: seq<int>, i: int, j: int) {
    0 <= j <= i < |s| && InBounds(s, |keys|)
    && (forall p, q :: 0 <= p < q <= i && p != j && q != j ==> keys[s[p]] <= keys[s[q]])
    && (forall q :: j < q <= i ==> keys[s[j]] <= keys[s[q]])
  }

  /** One pass of insertion sort: sink a[i] into the sorted prefix a[..i]. */
  method Insert(a: array<int>, keys: seq<real>, i: int)
    requires IndexArray(a, keys) && 0 <= i < a.Length && SortedBy(keys, a[..], i)
    modifies a
    ensures IndexArray(a, keys) && SortedBy(keys, a[..], i + 1)
  {
    var j := i;
    while j > 0 && keys[a[j - 1]] > keys[a[j]]
      invariant IndexArray(a, keys) && Sinking(keys, a[..], i, j)
    {
      ghost var s := a[..];
      SwapKeepsMultiset(a, j - 1, j);
      assert a[..] == s[j - 1 := s[j]][j := s[j - 1]];
      SinkStep(keys, s, i, j);
      j := j - 1;
    }
    SinkDone(keys, a[..], i, j);
  }

  /** Swapping the out-of-order pair at j - 1, j moves the hole from j to j - 1. */
  lemma SinkStep(keys: seq<real>, s: seq<int>, i: int, j: int)
    requires Sinking(keys, s, i, j) && 0 < j && keys[s[j - 1]] > keys[s[j]]
    ensures Sinking(keys, s[j - 1 := s[j]][j := s[j - 1]], i, j - 1)
  {
  }

  /** Once s[j] is not below its left neighbour, the whole prefix s[..i + 1] is in order. */
  lemma SinkDone(keys: seq<real>, s: seq<int>, i: int, j: int)
    requires Sinking(keys, s, i, j) && (j == 0 || keys[s[j - 1]] <= keys[s[j]])
    ensures SortedBy(keys, s, i + 1)
  {
  }

  /** Swapping two entries keeps the multiset of an index array. */
  method SwapKeepsMultiset(a: array<int>, p: int, q: int)
    requires 0 <= p < q < a.Length
    modifies a
    ensures a[p] == old(a[q]) && a[q] == old(a[p])
    ensures forall k :: 0 <= k < a.Length && k != p && k != q ==> a[k] == old(a[k])
    ensures multiset(a[..]) == multiset(old(a[..]))
  {
    a[p], a[q] := a[q], a[p];
    assert a[..] == old(a[..])[p := old(a[q])][q := old(a[p])];
  }

  /** Reordering by a permutation keeps the multiset of values: a_sorted is a
      rearrangement of the wrapped angles, r_sorted of the cleaned ranges. */
  lemma GatherPermutes<T>(s: seq<T>, idx: seq<int>)
    requires IsPermutation(idx, |s|) && InBounds(idx, |s|)
    ensures multiset(Gather(s, idx)) == multiset(s)
  {
    GatherPermutesPrefix(s, idx, |s|);
    assert s[..|s|] == s;
  }

  /** The induction: gathering through a permutation of 0 .. m-1 rearranges s[..m]. */
  lemma {:induction false} GatherPermutesPrefix<T>(s: seq<T>, idx: seq<int>, m: nat)
    requires m <= |s| && IsPermutation(idx, m) && InBounds(idx, m)
    ensures multiset(Gather(s, idx)) == multiset(s[..m])
  {
    if m == 0 {
      GatherEmpty(s, idx);
    } else {
      var p, rest := RemoveLast(idx, m);
      GatherPermutesPrefix(s, rest, m - 1);
      PrefixStep(s, idx, p, rest, m);
    }
  }

  /** Putting s[m - 1] back at position p of the gather. */
  lemma PrefixStep<T>(s: seq<T>, idx: seq<int>, p: int, rest: seq<int>, m: nat)
    requires 0 < m <= |s| && InBounds(idx, m) && 0 <= p < |idx| && idx[p] == m - 1
    requires rest == idx[..p] + idx[p + 1..] && InBounds(rest, m - 1)
    requires multiset(Gather(s, rest)) == multiset(s[..m - 1])
    ensures multiset(Gather(s, idx)) == multiset(s[..m])
  {
    GatherRemove(s, idx, p, rest);
    LastElement(s[..m]);
    assert s[..m][..m - 1] == s[..m - 1];
  }

  /** The base case: the only permutation of no indices is empty. */
  lemma GatherEmpty<T>(s: seq<T>, idx: seq<int>)
    requires IsPermutation(idx, 0) && InBounds(idx, |s|)
    ensures multiset(Gather(s, idx)) == multiset(s[..0])
  {
    assert |multiset(idx)| == 0;
    assert idx == [];
  }

  lemma LastElement<T>(s: seq<T>)
    requires 0 < |s|
    ensures multiset(s) == multiset(s[..|s| - 1]) + multiset{s[|s| - 1]}
  {
    assert s == s[..|s| - 1] + [s[|s| - 1]];
  }

  /** Gathering through idx is gathering through idx without position p, plus s[idx[p]]. */
  lemma GatherRemove<T>(s: seq<T>, idx: seq<int>, p: int, rest: seq<int>)
    requires InBounds(idx, |s|) && 0 <= p < |idx| && rest == idx[..p] + idx[p + 1..]
    ensures InBounds(rest, |s|)
    ensures multiset(Gather(s, idx)) == multiset(Gather(s, rest)) + multiset{s[idx[p]]}
  {
    var g, h := Gather(s, idx), Gather(s, rest);
    assert g == g[..p] + [s[idx[p]]] + g[p + 1..];
    assert h == g[..p] + g[p + 1..];
  }

  /** Where n - 1 sits in a permutation of 0 .. n-1. */
  lemma Find(idx: seq<int>, n: nat) returns (p: int)
    requires IsPermutation(idx, n) && 0 < n
    ensures 0 <= p < |idx| && idx[p] == n - 1
  {
    IotaMembers(n, n - 1);
    assert n - 1 in multiset(idx);
    p :| 0 <= p < |idx| && idx[p] == n - 1;
  }

  lemma Split(idx: seq<int>, p: int, rest: seq<int>)
    requires 0 <= p < |idx| && rest == idx[..p] + idx[p + 1..]
    ensures multiset(idx) == multiset(rest) + multiset{idx[p]}
  {
    assert idx == idx[..p] + [idx[p]] + idx[p + 1..];
  }

  lemma IotaLast(n: nat)
    requires 0 < n
    ensures multiset(Iota(n)) == multiset(Iota(n - 1)) + multiset{n - 1}
  {
    assert Iota(n) == Iota(n - 1) + [n - 1];
  }

  /** Take the position p of n - 1 out of a permutation of 0 .. n-1. */
  lemma RemoveLast(idx: seq<int>, n: nat) returns (p: int, rest: seq<int>)
    requires IsPermutation(idx, n) && 0 < n
    ensures 0 <= p < |idx| && idx[p] == n - 1
    ensures rest == idx[..p] + idx[p + 1..] && IsPermutation(rest, n - 1)
    ensures InBounds(rest, n - 1)
  {
    p := Find(idx, n);
    rest := idx[..p] + idx[p + 1..];
    Split(idx, p, rest);
    IotaLast(n);
    Cancel(multiset(rest), multiset(Iota(n - 1)), n - 1);
    PermutationInBounds(rest, n - 1);
  }

  lemma Cancel(a: multiset<int>, b: multiset<int>, x: int)
    requires a + multiset{x} == b + multiset{x}
    ensures a == b
  {
    forall y ensures a[y] == b[y] {
      assert (a + multiset{x})[y] == (b + multiset{x})[y];
    }
  }

  // ---------------------------------------------------------------------------
  // Wrap-around extension: concatenate([a - 2 pi, a, a + 2 pi]), concatenate([r, r, r])

  /** Every angle in [-pi, pi). */
  predicate InTurn(a: seq<real>) {
    forall k :: 0 <= k < |a| ==> -PI <= a[k] < PI
  }

  function Shift(a: seq<real>, d: real): (s: seq<real>)
    ensures |s| == |a|
    ensures forall k :: 0 <= k < |a| ==> s[k] == a[k] + d
  {
    seq(|a|, k requires 0 <= k < |a| => a[k] + d)
  }

  /** a_ext: the sorted angles one turn below, as they are, and one turn above. */
  function ExtendAngles(a: seq<real>): (e: seq<real>)
    ensures |e| == 3 * |a|
    ensures forall k :: 0 <= k < |a| ==>
              e[k] == a[k] - 2.0 * PI && e[k + |a|] == a[k] && e[k + 2 * |a|] == a[k] + 2.0 * PI
  {
    Shift(a, -2.0 * PI) + a + Shift(a, 2.0 * PI)
  }

  /** r_ext: the sorted ranges three times over. */
  function Triplicate(r: seq<real>): (t: seq<real>)
    ensures |t| == 3 * |r|
    ensures forall k :: 0 <= k < |r| ==> t[k] == r[k] && t[k + |r|] == r[k] && t[k + 2 * |r|] == r[k]
  {
    r + r + r
  }

  /** a_ext holds three copies of the scan, shifted by -2 pi, 0 and +2 pi. Because the
      wrapped angles lie in one turn the copies do not overlap, so a_ext is sorted. */
  lemma ExtendedSorted(a: seq<real>)
    requires Sorted(a) && InTurn(a)
    ensures |ExtendAngles(a)| == 3 * |a|
    ensures Sorted(ExtendAngles(a))
  {
    var e, n := ExtendAngles(a), |a|;
    forall p, q | 0 <= p < q < 3 * n
      ensures e[p] <= e[q]
    {
      ExtendedAt(a, p);
      ExtendedAt(a, q);
    }
  }

  /** The entry of a_ext at k, by the copy it falls in. */
  lemma ExtendedAt(a: seq<real>, k: int)
    requires 0 <= k < 3 * |a|
    ensures k < |a| ==> ExtendAngles(a)[k] == a[k] - 2.0 * PI
    ensures |a| <= k < 2 * |a| ==> ExtendAngles(a)[k] == a[k - |a|]
    ensures 2 * |a| <= k ==> ExtendAngles(a)[k] == a[k - 2 * |a|] + 2.0 * PI
  {
    var n := |a|;
    if n <= k < 2 * n {
      assert ExtendAngles(a)[(k - n) + n] == a[k - n];
    } else if 2 * n <= k {
      assert ExtendAngles(a)[(k - 2 * n) + 2 * n] == a[k - 2 * n] + 2.0 * PI;
    }
  }

  // ---------------------------------------------------------------------------
  // np.interp

  /** The bracket np.interp's binary search finds: the last sample position at or
      below x (for sorted positions, xp[j] <= x < xp[j + 1]). */
  function LastAtMost(x: real, xp: seq<real>): (j: int)
    requires 0 < |xp| && xp[0] <= x
    ensures 0 <= j < |xp| && xp[j] <= x
    ensures forall k :: j < k < |xp| ==> x < xp[k]
    decreases |xp|
  {
    var n := |xp|;
    if xp[n - 1] <= x then n - 1 else LastAtMost(x, xp[..n - 1])
  }

  /** The two properties of LastAtMost determine it. */
  lemma LastAtMostUnique(x: real, xp: seq<real>, j: int)
    requires 0 < |xp| && xp[0] <= x
    requires 0 <= j < |xp| && xp[j] <= x
    requires forall k :: j < k < |xp| ==> x < xp[k]
    ensures LastAtMost(x, xp) == j
  {
  }

  /** slope * (x - x0) + y0 with slope = (y1 - y0) / (x1 - x0): the chord through
      (x0, y0) and (x1, y1), that is, the average of y0 and y1 weighted by the
      distances of x from the far end, and so between the two values. */
  function Lerp(x: real, x0: real, x1: real, y0: real, y1: real): (v: real)
    requires x0 < x < x1
    ensures v * (x1 - x0) == y0 * (x1 - x) + y1 * (x - x0)
    ensures Min(y0, y1) <= v <= Max(y0, y1)
  {
    SlopeBetween(y0, y1, x - x0, x1 - x0);
    var q := (y1 - y0) / (x1 - x0);
    assert q * (x1 - x0) == y1 - y0;
    assert (q * (x - x0) + y0) * (x1 - x0) == (y1 - y0) * (x - x0) + y0 * (x1 - x0);
    q * (x - x0) + y0
  }

  /** np.interp(x, xp, fp) at one point: the end value beyond either end, the sample
      value at a sample position, and the chord between the bracketing samples
      otherwise. Whatever xp is, the result is never outside the sample values. */
  function Interp(x: real, xp: seq<real>, fp: seq<real>): (v: real)
    requires 0 < |xp| == |fp|
    ensures xp[|xp| - 1] < x ==> v == fp[|fp| - 1]
    ensures x < xp[0] && x <= xp[|xp| - 1] ==> v == fp[0]
    ensures exists i, k :: 0 <= i < |fp| && 0 <= k < |fp| && fp[i] <= v <= fp[k]
  {
    var last := |xp| - 1;
    if x > xp[last] then
      fp[last]
    else if x < xp[0] then
      fp[0]
    else
      var j := LastAtMost(x, xp);
      if j == last || xp[j] == x then
        fp[j]
      else
        var v := Lerp(x, xp[j], xp[j + 1], fp[j], fp[j + 1]);
        assert fp[j] <= v <= fp[j + 1] || fp[j + 1] <= v <= fp[j];
        v
  }

  /** On sorted positions, at a sample position (the last of equal ones) np.interp
      returns that sample's value. */
  lemma InterpAtSample(x: real, xp: seq<real>, fp: seq<real>, k: int)
    requires 0 < |xp| == |fp| && Sorted(xp)
    requires 0 <= k < |xp| && xp[k] == x && (k == |xp| - 1 || x < xp[k + 1])
    ensures Interp(x, xp, fp) == fp[k]
  {
    LastAtMostUnique(x, xp, k);
  }

  /** On sorted positions, strictly between two neighbouring samples np.interp is the
      linear interpolation of their values, and so lies between them. */
  lemma InterpBetweenNeighbours(x: real, xp: seq<real>, fp: seq<real>, k: int)
    requires 0 < |xp| == |fp| && Sorted(xp)
    requires 0 <= k < |xp| - 1 && xp[k] < x < xp[k + 1]
    ensures Interp(x, xp, fp) * (xp[k + 1] - xp[k]) == fp[k] * (xp[k + 1] - x) + fp[k + 1] * (x - xp[k])
    ensures Min(fp[k], fp[k + 1]) <= Interp(x, xp, fp) <= Max(fp[k], fp[k + 1])
  {
    LastAtMostUnique(x, xp, k);
  }

  /** Any bound all sample values keep, the interpolant keeps. */
  lemma InterpBounded(x: real, xp: seq<real>, fp: seq<real>, lo: real, hi: real)
    requires 0 < |xp| == |fp|
    requires forall k :: 0 <= k < |fp| ==> lo < fp[k] <= hi
    ensures lo < Interp(x, xp, fp) <= hi
  {
    var v := Interp(x, xp, fp);
    var i, k :| 0 <= i < |fp| && 0 <= k < |fp| && fp[i] <= v <= fp[k];
  }

  // ---------------------------------------------------------------------------
  // theta_grid = np.linspace(-pi, pi, 720), np.clip, and the grid itself

  /** The spacing of np.linspace: (stop - start) / (num - 1). */
  const THETA_STEP: real := (PI - -PI) / (GRID_SIZE - 1) as real

  /** np.linspace(-pi, pi, 720)[k]: start + k * step, with the endpoint set to stop
      exactly. */
  function Theta(k: nat): (t: real)
    requires k < GRID_SIZE
    ensures -PI <= t <= PI
    ensures k == 0 ==> t == -PI
    ensures k == GRID_SIZE - 1 ==> t == PI
  {
    if k == GRID_SIZE - 1 then PI else k as real * THETA_STEP + -PI
  }

  /** The grid is strictly increasing and evenly spaced. */
  lemma ThetaIncreasing(k1: nat, k2: nat)
    requires k1 < k2 < GRID_SIZE
    ensures Theta(k1) < Theta(k2)
    ensures k2 == k1 + 1 ==> Theta(k2) - Theta(k1) == THETA_STEP
  {
  }

  /** r_grid: the clipped interpolation of the extended scan at every grid angle. */
  function GridOf(aSorted: seq<real>, rSorted: seq<real>, rmax: real): (g: seq<real>)
    requires 0 < |aSorted| == |rSorted|
    ensures |g| == GRID_SIZE
    ensures 0.0 <= rmax ==> forall k :: 0 <= k < GRID_SIZE ==> 0.0 <= g[k] <= rmax
  {
    seq(GRID_SIZE, k requires 0 <= k < GRID_SIZE =>
      Clip(Interp(Theta(k), ExtendAngles(aSorted), Triplicate(rSorted)), 0.0, rmax))
  }

  /** np.copy of the ranges followed by the masked assignment. */
  method CleanCopy(ranges: seq<real>, rmax: real) returns (clean: seq<real>)
    ensures clean == CleanAll(ranges, rmax)
  {
    var n := |ranges|;
    var a := new real[n](k requires 0 <= k < n => ranges[k]);
    assert a[..] == ranges;
    CleanInPlace(a, rmax);
    clean := a[..];
  }

  /** grid is r_grid for these angles and cleaned ranges under some angle-sorting
      permutation. */
  ghost predicate IsGridOf(grid: seq<real>, angles: seq<real>, rangesClean: seq<real>, rmax: real)
    requires 0 < |angles| == |rangesClean|
  {
    exists idx :: IsSortingPermutation(angles, idx)
      && grid == GridOf(Gather(angles, idx), Gather(rangesClean, idx), rmax)
  }

  /** From argsort to clip: sort both arrays by angle, extend, interpolate onto
      theta_grid, clip to [0, rmax]. The grid closes up at -pi == pi. */
  method BoundaryGrid(angles: seq<real>, rangesClean: seq<real>, rmax: real) returns (grid: seq<real>)
    requires 0 < |angles| == |rangesClean| && InTurn(angles)
    ensures |grid| == GRID_SIZE && IsGridOf(grid, angles, rangesClean, rmax)
    ensures grid[0] == grid[GRID_SIZE - 1]
    ensures 0.0 <= rmax ==> forall k :: 0 <= k < GRID_SIZE ==> 0.0 <= grid[k] <= rmax
  {
    var idx := ArgSort(angles);
    var aSorted := Gather(angles, idx);
    var rSorted := Gather(rangesClean, idx);
    assert InTurn(aSorted);
    GridSeam(aSorted, rSorted, rmax);
    grid := GridOf(aSorted, rSorted, rmax);
  }

  /** The readings as (angle, range) pairs. */
  function Zip(a: seq<real>, r: seq<real>): (z: seq<(real, real)>)
    requires |a| == |r|
    ensures |z| == |a|
    ensures forall k :: 0 <= k < |a| ==> z[k] == (a[k], r[k])
  {
    seq(|a|, k requires 0 <= k < |a| => (a[k], r[k]))
  }

  /** a_sorted is non-decreasing and a rearrangement of the angles, r_sorted of the
      ranges, and both are reordered alike: every reading keeps its own range. */
  lemma SortedScan(angles: seq<real>, rangesClean: seq<real>, idx: seq<int>)
    requires |angles| == |rangesClean| && IsSortingPermutation(angles, idx)
    ensures Sorted(Gather(angles, idx))
    ensures multiset(Gather(angles, idx)) == multiset(angles)
    ensures multiset(Gather(rangesClean, idx)) == multiset(rangesClean)
    ensures Zip(Gather(angles, idx), Gather(rangesClean, idx)) == Gather(Zip(angles, rangesClean), idx)
    ensures multiset(Zip(Gather(angles, idx), Gather(rangesClean, idx)))
         == multiset(Zip(angles, rangesClean))
  {
    GatherPermutes(angles, idx);
    GatherPermutes(rangesClean, idx);
    GatherPermutes(Zip(angles, rangesClean), idx);
    assert Zip(Gather(angles, idx), Gather(rangesClean, idx)) == Gather(Zip(angles, rangesClean), idx);
  }

  /** For a scan wrapped and cleaned against a positive rmax, the clip changes
      nothing and the whole boundary lies in (0, rmax]. */
  lemma ScanGridWithin(grid: seq<real>, angles: seq<real>, ranges: seq<real>, rmax: real)
    requires 0 < |angles| == |ranges| && 0.0 < rmax
    requires IsGridOf(grid, WrapAll(angles), CleanAll(ranges, rmax), rmax)
    ensures forall k :: 0 <= k < GRID_SIZE ==> 0.0 < grid[k] <= rmax
  {
    var wrapped, clean := WrapAll(angles), CleanAll(ranges, rmax);
    var idx :| IsSortingPermutation(wrapped, idx)
      && grid == GridOf(Gather(wrapped, idx), Gather(clean, idx), rmax);
    var rSorted := Gather(clean, idx);
    assert forall k :: 0 <= k < |rSorted| ==> ValidRange(rSorted[k], rmax);
    GridWithin(Gather(wrapped, idx), rSorted, rmax);
  }

  /** r_grid closes up: its first entry (at -pi) equals its last (at pi). */
  lemma GridSeam(aSorted: seq<real>, rSorted: seq<real>, rmax: real)
    requires 0 < |aSorted| == |rSorted| && Sorted(aSorted) && InTurn(aSorted)
    ensures GridOf(aSorted, rSorted, rmax)[0] == GridOf(aSorted, rSorted, rmax)[GRID_SIZE - 1]
  {
    Seam(aSorted, rSorted);
  }

  /** With every cleaned range in (0, rmax], the clip changes nothing and r_grid lies
      in (0, rmax] too. */
  lemma GridWithin(aSorted: seq<real>, rSorted: seq<real>, rmax: real)
    requires 0 < |aSorted| == |rSorted|
    requires forall k :: 0 <= k < |rSorted| ==> ValidRange(rSorted[k], rmax)
    ensures forall k :: 0 <= k < GRID_SIZE ==>
              var v := Interp(Theta(k), ExtendAngles(aSorted), Triplicate(rSorted));
              GridOf(aSorted, rSorted, rmax)[k] == v && 0.0 < v <= rmax
  {
    var e, t := ExtendAngles(aSorted), Triplicate(rSorted);
    assert forall k :: 0 <= k < |t| ==> 0.0 < t[k] <= rmax by {
      forall k | 0 <= k < |t|
        ensures 0.0 < t[k] <= rmax
      {
        if k < |rSorted| {
        } else if k < 2 * |rSorted| {
          assert t[(k - |rSorted|) + |rSorted|] == rSorted[k - |rSorted|];
        } else {
          assert t[(k - 2 * |rSorted|) + 2 * |rSorted|] == rSorted[k - 2 * |rSorted|];
        }
      }
    }
    forall k | 0 <= k < GRID_SIZE
      ensures 0.0 < Interp(Theta(k), e, t) <= rmax
    {
      InterpBounded(Theta(k), e, t, 0.0, rmax);
    }
  }

  /** fill_between shades the grid angles where r_grid < rmax. That happens only
      where some reading of the scan came back valid and closer than rmax. */
  lemma ShadeNeedsEcho(aSorted: seq<real>, rSorted: seq<real>, rmax: real, k: int)
    requires 0 < |aSorted| == |rSorted| && 0 <= k < GRID_SIZE
    requires GridOf(aSorted, rSorted, rmax)[k] < rmax
    ensures exists i :: 0 <= i < |rSorted| && rSorted[i] < rmax
  {
    var e, t := ExtendAngles(aSorted), Triplicate(rSorted);
    var v := Interp(Theta(k), e, t);
    var i, q :| 0 <= i < |t| && 0 <= q < |t| && t[i] <= v <= t[q];
    var n := |rSorted|;
    if i < n {
      assert rSorted[i] < rmax;
    } else if i < 2 * n {
      assert t[(i - n) + n] == rSorted[i - n];
    } else {
      assert t[(i - 2 * n) + 2 * n] == rSorted[i - 2 * n];
    }
  }

  /** A scan without a valid reading closer than rmax shades nothing. */
  lemma NoEchoNoShade(grid: seq<real>, angles: seq<real>, ranges: seq<real>, rmax: real)
    requires 0 < |angles| == |ranges|
    requires IsGridOf(grid, WrapAll(angles), CleanAll(ranges, rmax), rmax)
    requires forall i :: 0 <= i < |ranges| ==> !(0.0 < ranges[i] < rmax)
    ensures forall k :: 0 <= k < GRID_SIZE ==> !(grid[k] < rmax)
  {
    var idx :| IsSortingPermutation(WrapAll(angles), idx)
      && grid == GridOf(Gather(WrapAll(angles), idx), Gather(CleanAll(ranges, rmax), idx), rmax);
    var aSorted := Gather(WrapAll(angles), idx);
    var rSorted := Gather(CleanAll(ranges, rmax), idx);
    assert forall i :: 0 <= i < |rSorted| ==> rmax <= rSorted[i];
    forall k | 0 <= k < GRID_SIZE
      ensures !(grid[k] < rmax)
    {
      if grid[k] < rmax {
        ShadeNeedsEcho(aSorted, rSorted, rmax, k);
      }
    }
  }

  // ---------------------------------------------------------------------------
  // The seam: theta_grid starts at -pi and ends at pi, one turn apart

  /** a_ext one turn further on is a_ext shifted up by a turn. */
  lemma ExtendedShift(a: seq<real>, k: int)
    requires 0 <= k < 2 * |a|
    ensures ExtendAngles(a)[k + |a|] == ExtendAngles(a)[k] + 2.0 * PI
  {
    ExtendedAt(a, k);
    ExtendedAt(a, k + |a|);
  }

  lemma TriplicateShift(r: seq<real>, k: int)
    requires 0 <= k < 2 * |r|
    ensures Triplicate(r)[k + |r|] == Triplicate(r)[k]
  {
    var n := |r|;
    if n <= k {
      assert Triplicate(r)[(k - n) + n] == r[k - n];
      assert Triplicate(r)[(k - n) + 2 * n] == r[k - n];
    }
  }

  /** Because the three copies repeat the scan one turn apart, the interpolated
      boundary takes the same value at -pi and at pi: the drawn boundary closes. */
  lemma Seam(a: seq<real>, r: seq<real>)
    requires 0 < |a| == |r| && Sorted(a) && InTurn(a)
    ensures Interp(-PI, ExtendAngles(a), Triplicate(r)) == Interp(PI, ExtendAngles(a), Triplicate(r))
  {
    var n := |a|;
    var j1 := SeamBracket(a);
    SeamCopies(a, r, j1);
    InterpShifted(-PI, PI, ExtendAngles(a), Triplicate(r), j1, j1 + n, 2.0 * PI);
  }

  /** The bracket of -pi and its neighbour, one copy later, are a turn higher and
      carry the same ranges; with no neighbour, -pi is itself a sample position. */
  lemma SeamCopies(a: seq<real>, r: seq<real>, j1: int)
    requires 0 < |a| == |r| && InTurn(a) && 0 <= j1 < 2 * |a|
    requires ExtendAngles(a)[j1] <= -PI
    ensures ExtendAngles(a)[j1 + |a|] == ExtendAngles(a)[j1] + 2.0 * PI
    ensures Triplicate(r)[j1 + |a|] == Triplicate(r)[j1]
    ensures j1 + 1 < 2 * |a| ==>
              ExtendAngles(a)[j1 + 1 + |a|] == ExtendAngles(a)[j1 + 1] + 2.0 * PI
              && Triplicate(r)[j1 + 1 + |a|] == Triplicate(r)[j1 + 1]
    ensures j1 + 1 == 2 * |a| ==> ExtendAngles(a)[j1] == -PI
  {
    ExtendedShift(a, j1);
    TriplicateShift(r, j1);
    if j1 + 1 < 2 * |a| {
      ExtendedShift(a, j1 + 1);
      TriplicateShift(r, j1 + 1);
    } else {
      ExtendedAt(a, j1);
    }
  }

  /** np.interp at two points whose brackets are d apart in position and carry the
      same values gives the same result. */
  lemma InterpShifted(x1: real, x2: real, xp: seq<real>, fp: seq<real>, j1: int, j2: int, d: real)
    requires 0 < |xp| == |fp|
    requires xp[0] <= x1 <= xp[|xp| - 1] && xp[0] <= x2 <= xp[|xp| - 1]
    requires j1 == LastAtMost(x1, xp) && j2 == LastAtMost(x2, xp) && j1 <= j2
    requires x2 == x1 + d && xp[j2] == xp[j1] + d && fp[j2] == fp[j1]
    requires j2 < |xp| - 1 ==> xp[j2 + 1] == xp[j1 + 1] + d && fp[j2 + 1] == fp[j1 + 1]
    requires j2 == |xp| - 1 ==> xp[j1] == x1
    ensures Interp(x1, xp, fp) == Interp(x2, xp, fp)
  {
    var v1 := InterpInside(x1, xp, fp, j1);
    var v2 := InterpInside(x2, xp, fp, j2);
    if j2 < |xp| - 1 && xp[j1] != x1 {
      LerpShift(x1, xp[j1], xp[j1 + 1], fp[j1], fp[j1 + 1], d);
    }
  }

  /** The chord does not change when x and both abscissae move by the same amount. */
  lemma LerpShift(x: real, x0: real, x1: real, y0: real, y1: real, d: real)
    requires x0 < x < x1
    ensures Lerp(x + d, x0 + d, x1 + d, y0, y1) == Lerp(x, x0, x1, y0, y1)
  {
    assert (x1 + d) - (x0 + d) == x1 - x0;
    assert (x + d) - (x0 + d) == x - x0;
  }

  /** np.interp between the end positions, by its bracket j. */
  lemma InterpInside(x: real, xp: seq<real>, fp: seq<real>, j: int) returns (v: real)
    requires 0 < |xp| == |fp| && xp[0] <= x <= xp[|xp| - 1] && j == LastAtMost(x, xp)
    ensures v == Interp(x, xp, fp)
    ensures j == |xp| - 1 || xp[j] == x ==> v == fp[j]
    ensures j < |xp| - 1 && xp[j] != x ==>
              xp[j] < x < xp[j + 1]
              && v == Lerp(x, xp[j], xp[j + 1], fp[j], fp[j + 1])
  {
    v := Interp(x, xp, fp);
  }

  /** Both grid ends fall inside a_ext, and the bracket of pi is the bracket of -pi
      one copy later. */
  lemma SeamBracket(a: seq<real>) returns (j1: int)
    requires 0 < |a| && Sorted(a) && InTurn(a)
    ensures ExtendAngles(a)[0] <= -PI && PI <= ExtendAngles(a)[3 * |a| - 1]
    ensures j1 == LastAtMost(-PI, ExtendAngles(a)) && j1 < 2 * |a|
    ensures LastAtMost(PI, ExtendAngles(a)) == j1 + |a|
  {
    var e := ExtendAngles(a);
    ExtendedEnds(a);
    j1 := LastAtMost(-PI, e);
    ExtendedAt(a, j1);
    ExtendedShift(a, j1);
    AboveAfterShift(a, j1);
    LastAtMostUnique(PI, e, j1 + |a|);
  }

  /** a_ext starts at or below -pi and ends at or above pi. */
  lemma ExtendedEnds(a: seq<real>)
    requires 0 < |a| && InTurn(a)
    ensures ExtendAngles(a)[0] <= -PI && PI <= ExtendAngles(a)[3 * |a| - 1]
  {
    ExtendedAt(a, 0);
    ExtendedAt(a, 3 * |a| - 1);
  }

  /** Every position after the copy of -pi's bracket holds an angle above pi. */
  lemma AboveAfterShift(a: seq<real>, j1: int)
    requires 0 < |a| && 0 <= j1 < 2 * |a|
    requires forall k :: j1 < k < 3 * |a| ==> -PI < ExtendAngles(a)[k]
    ensures forall k :: j1 + |a| < k < 3 * |a| ==> PI < ExtendAngles(a)[k]
  {
    forall k | j1 + |a| < k < 3 * |a|
      ensures PI < ExtendAngles(a)[k]
    {
      ExtendedShift(a, k - |a|);
    }
  }
}
