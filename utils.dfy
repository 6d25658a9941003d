/** Patch extraction and quantisation histograms (utils.py). */
module Utils {
  import opened Common

  /** Side of the square patches, in pixels. */
  const PatchSize: nat := 16

  /** Length of a flattened patch: PatchSize × PatchSize pixels of 3 channels. */
  const PatchLength: nat := PatchSize * PatchSize * 3

  /** An image laid out as an array of shape (height, width, channels):
      `img[y][x][c]` is channel c of the pixel in row y and column x. */
  type Image = seq<seq<seq<int>>>

  function Height(img: Image): nat { |img| }

  function Width(img: Image): nat { if |img| == 0 then 0 else |img[0]| }

  function Channels(img: Image): nat
  {
    if |img| == 0 || |img[0]| == 0 then 0 else |img[0][0]|
  }

  /** Every row has the same width and every pixel the same number of
      channels, as in a three-dimensional array. */
  predicate Rectangular(img: Image)
  {
    && (forall y :: 0 <= y < |img| ==> |img[y]| == Width(img))
    && (forall y, x :: 0 <= y < |img| && 0 <= x < |img[y]| ==> |img[y][x]| == Channels(img))
  }

  /** The PatchSize × PatchSize × 3 block whose upper-left corner is (y, x),
      flattened in row-major (C) order: rows, then columns, then channels. */
  function Window(img: Image, y: nat, x: nat): (p: seq<int>)
    requires Rectangular(img) && Channels(img) == 3
    requires y + PatchSize <= Height(img) && x + PatchSize <= Width(img)
    ensures |p| == PatchLength
  {
    seq(PatchLength, k requires 0 <= k < PatchLength =>
      img[y + k / (PatchSize * 3)][x + (k / 3) % PatchSize][k % 3])
  }

  /** Element (dy, dx, c) of the block sits at offset (dy * PatchSize + dx) * 3 + c. */
  lemma WindowAt(img: Image, y: nat, x: nat, dy: nat, dx: nat, c: nat)
    requires Rectangular(img) && Channels(img) == 3
    requires y + PatchSize <= Height(img) && x + PatchSize <= Width(img)
    requires dy < PatchSize && dx < PatchSize && c < 3
    ensures Window(img, y, x)[(dy * PatchSize + dx) * 3 + c] == img[y + dy][x + dx][c]
  {
    var k := (dy * PatchSize + dx) * 3 + c;
    assert k == dy * 48 + dx * 3 + c;
    assert k / 48 == dy;
    assert k / 3 == dy * 16 + dx;
    assert (k / 3) % 16 == dx;
    assert k % 3 == c;
  }

  // ---------------------------------------------------------------------
  // Stride search

  /** The fraction of corners visited with a stride of n along one axis. */
  function Coverage(n: nat): real
    requires n >= 1
  {
    1.0 / n as real
  }

  /** What the stride loop leaves behind for a target coverage: the column
      stride is never changed, and the row stride is one more than the
      smallest n >= 1 whose coverage 1/n no longer exceeds the target
      (unless the target is at least 1, when the loop body never runs). */
  predicate StrideSearchResult(coverage: real, strideY: nat, strideX: nat)
  {
    && strideX == 1
    && (coverage >= 1.0 ==> strideY == 1)
    && (coverage < 1.0 ==>
          && strideY >= 3
          && Coverage(strideY - 1) <= coverage
          && forall n :: 1 <= n < strideY - 1 ==> Coverage(n) > coverage)
  }

  /** A product of two positive reals is positive. */
  lemma PositiveProduct(a: real, b: real)
    requires a > 0.0 && b > 0.0
    ensures a * b > 0.0
  {
  }

  /** A quotient of two positive reals is positive. */
  lemma PositiveQuotient(a: real, b: real)
    requires a > 0.0 && b > 0.0
    ensures a / b > 0.0
  {
  }

  /** A coverage above the target c bounds the stride by 1/c. */
  lemma CoverageBound(coverage: real, n: nat)
    requires coverage > 0.0 && n >= 1 && Coverage(n) > coverage
    ensures n < (1.0 / coverage).Floor + 1
  {
    var r := n as real;
    var inv := 1.0 / coverage;
    PositiveProduct(1.0 / r - coverage, r);
    assert (1.0 / r - coverage) * r == 1.0 - coverage * r;
    var gap := 1.0 - coverage * r;
    PositiveQuotient(gap, coverage);
    assert inv - r == gap / coverage;
    assert r < inv;
  }

  /** The stride loop of the deterministic branch, as written: `iter` stays 0,
      so every pass computes the coverage of the current strides and then
      increments the row stride. */
  method ComputeStrides(coverage: real) returns (strideY: nat, strideX: nat)
    requires coverage > 0.0
    ensures StrideSearchResult(coverage, strideY, strideX)
  {
    var sy: int, sx: int := 1, 1;
    var currCoverage := 1.0;
    var iter := 0;
    ghost var bound := (1.0 / coverage).Floor + 1;
    while currCoverage > coverage
      invariant iter == 0 && sx == 1 && sy >= 1
      invariant currCoverage == Coverage(if sy == 1 then 1 else sy - 1)
      invariant forall n :: 1 <= n < sy - 1 ==> Coverage(n) > coverage
      invariant sy >= 2 ==> Coverage(1) > coverage
      decreases bound + 1 - sy
    {
      CoverageBound(coverage, if sy == 1 then 1 else sy - 1);
      currCoverage := 1.0 / (sx * sy) as real;
      if iter % 2 == 0 {
        sy := sy + 1;
      } else {
        sx := sx + 1;
      }
    }
    strideY, strideX := sy, sx;
  }

  /** The stride search has exactly one outcome for each target. */
  lemma StrideSearchResultUnique(coverage: real, sy1: nat, sy2: nat)
    requires StrideSearchResult(coverage, sy1, 1) && StrideSearchResult(coverage, sy2, 1)
    ensures sy1 == sy2
  {
  }

  // ---------------------------------------------------------------------
  // Sliding window

  /** The number of values in `range(0, n, step)`. */
  function RangeLen(n: int, step: nat): nat
    requires step >= 1
  {
    if n <= 0 then 0 else (n - 1) / step + 1
  }

  /** The k-th value k * step of `range(0, n, step)` exists exactly when
      k is below the range's length. */
  lemma RangeStep(n: int, step: nat, k: nat)
    requires step >= 1
    ensures k * step < n <==> k < RangeLen(n, step)
  {
    if n > 0 {
      var q, r := (n - 1) / step, (n - 1) % step;
      assert n - 1 == q * step + r && 0 <= r < step;
      if k <= q {
        MulMono(k, q, step);
      } else {
        MulMono(q + 1, k, step);
        assert (q + 1) * step == q * step + step;
      }
    }
  }

  lemma MulSucc(a: int, b: int)
    ensures (a + 1) * b == a * b + b
  {
  }

  lemma MulMono(a: int, b: int, c: nat)
    requires a <= b
    ensures a * c <= b * c
  {
    assert b * c - a * c == (b - a) * c;
  }

  /** Position row * cols + col of a row-major layout with `cols` columns. */
  lemma RowMajorIndex(row: nat, col: nat, cols: nat)
    requires col < cols
    ensures (row * cols + col) / cols == row && (row * cols + col) % cols == col
  {
    var i := row * cols + col;
    var q, r := i / cols, i % cols;
    assert i == q * cols + r && 0 <= r < cols;
    if q > row {
      MulMono(row + 1, q, cols);
      assert false;
    } else if q < row {
      MulMono(q + 1, row, cols);
      assert false;
    }
  }

  /** Number of rows of upper-left corners visited with a row stride. */
  function RowCount(img: Image, strideY: nat): nat
    requires strideY >= 1
  {
    RangeLen(Height(img) - PatchSize + 1, strideY)
  }

  /** Number of columns of upper-left corners visited with a column stride. */
  function ColCount(img: Image, strideX: nat): nat
    requires strideX >= 1
  {
    RangeLen(Width(img) - PatchSize + 1, strideX)
  }

  /** Patch i is the window whose corner is in corner row i / cols and corner
      column i % cols, each of which lies inside the image. */
  predicate WindowsAt(img: Image, strideY: nat, strideX: nat, cols: nat, patches: seq<seq<int>>)
    requires Rectangular(img) && Channels(img) == 3
  {
    && cols >= 1
    && forall i :: 0 <= i < |patches| ==>
        && (i / cols) * strideY + PatchSize <= Height(img)
        && (i % cols) * strideX + PatchSize <= Width(img)
        && patches[i] == Window(img, (i / cols) * strideY, (i % cols) * strideX)
  }

  /** Appending the window at corner (row, col) keeps the row-major layout. */
  lemma WindowsAtAppend(img: Image, strideY: nat, strideX: nat, cols: nat,
                        patches: seq<seq<int>>, row: nat, col: nat)
    requires Rectangular(img) && Channels(img) == 3
    requires WindowsAt(img, strideY, strideX, cols, patches)
    requires col < cols && |patches| == row * cols + col
    requires row * strideY + PatchSize <= Height(img) && col * strideX + PatchSize <= Width(img)
    ensures WindowsAt(img, strideY, strideX, cols, patches + [Window(img, row * strideY, col * strideX)])
  {
    RowMajorIndex(row, col, cols);
  }

  /** The output of the sliding window: one patch per corner, in row-major
      order of the corners. */
  predicate RowMajorWindows(img: Image, strideY: nat, strideX: nat, patches: seq<seq<int>>)
    requires Rectangular(img) && Channels(img) == 3
    requires strideY >= 1 && strideX >= 1
  {
    && |patches| == RowCount(img, strideY) * ColCount(img, strideX)
    && WindowsAt(img, strideY, strideX, ColCount(img, strideX), patches)
  }

  /** The nested `for` loops of the deterministic branch: corners run over
      `range(0, height - PatchSize + 1, strideY)` and, inside,
      `range(0, width - PatchSize + 1, strideX)`; each window is appended. */
  method SlidingWindow(img: Image, strideY: nat, strideX: nat) returns (patches: seq<seq<int>>)
    requires Rectangular(img) && Channels(img) == 3
    requires Height(img) >= PatchSize && Width(img) >= PatchSize
    requires strideY >= 1 && strideX >= 1
    ensures RowMajorWindows(img, strideY, strideX, patches)
    ensures |patches| == ((Height(img) - PatchSize) / strideY + 1) * ((Width(img) - PatchSize) / strideX + 1)
    ensures forall i :: 0 <= i < |patches| ==> |patches[i]| == PatchLength
  {
    var height, width := Height(img), Width(img);
    ghost var rows := RowCount(img, strideY);
    ghost var cols := ColCount(img, strideX);
    patches := [];
    var upperLeftY := 0;
    ghost var row := 0;
    while upperLeftY < height - PatchSize + 1
      invariant upperLeftY == row * strideY && row <= rows
      invariant |patches| == row * cols
      invariant WindowsAt(img, strideY, strideX, cols, patches)
      decreases height - upperLeftY
    {
      RangeStep(height - PatchSize + 1, strideY, row);
      var upperLeftX := 0;
      ghost var col := 0;
      while upperLeftX < width - PatchSize + 1
        invariant upperLeftX == col * strideX && col <= cols
        invariant |patches| == row * cols + col
        invariant WindowsAt(img, strideY, strideX, cols, patches)
        decreases width - upperLeftX
      {
        RangeStep(width - PatchSize + 1, strideX, col);
        WindowsAtAppend(img, strideY, strideX, cols, patches, row, col);
        patches := patches + [Window(img, upperLeftY, upperLeftX)];
        MulSucc(col, strideX);
        upperLeftX := upperLeftX + strideX;
        col := col + 1;
      }
      RangeStep(width - PatchSize + 1, strideX, col);
      MulSucc(row, cols);
      MulSucc(row, strideY);
      upperLeftY := upperLeftY + strideY;
      row := row + 1;
    }
    RangeStep(height - PatchSize + 1, strideY, row);
  }

  /** `get_patches` with `config.random` false: the size assertion, the stride
      search and the sliding window. A reshape of a block that does not hold
      PatchSize * PatchSize * 3 values raises ValueError. The ghost results
      are the strides the search chose. */
  method GetPatches(img: Image, coverage: real)
    returns (r: Result<seq<seq<int>>>, ghost strideY: nat, ghost strideX: nat)
    requires Rectangular(img)
    requires coverage > 0.0 || Height(img) < PatchSize || Width(img) < PatchSize
    ensures !(Height(img) >= PatchSize && Width(img) >= PatchSize) ==> r == Err(AssertionError)
    ensures Height(img) >= PatchSize && Width(img) >= PatchSize && Channels(img) != 3 ==>
              r == Err(ValueError)
    ensures Height(img) >= PatchSize && Width(img) >= PatchSize && Channels(img) == 3 ==>
              && StrideSearchResult(coverage, strideY, strideX)
              && r.Ok?
              && RowMajorWindows(img, strideY, strideX, r.value)
              && (forall i :: 0 <= i < |r.value| ==> |r.value[i]| == PatchLength)
    ensures Height(img) == PatchSize && Width(img) == PatchSize && Channels(img) == 3 ==>
              r.Ok? && |r.value| == 1
  {
    strideY, strideX := 1, 1;
    var height, width := Height(img), Width(img);
    if !(height >= PatchSize && width >= PatchSize) {
      return Err(AssertionError), strideY, strideX;
    }
    var sy, sx := ComputeStrides(coverage);
    strideY, strideX := sy, sx;
    if Channels(img) != 3 {
      return Err(ValueError), strideY, strideX;
    }
    var patches := SlidingWindow(img, sy, sx);
    r := Ok(patches);
  }

  // ---------------------------------------------------------------------
  // Histograms

  /** The sum of a sequence of counts. */
  function SumNat(s: seq<nat>): nat
  {
    if |s| == 0 then 0 else SumNat(s[..|s| - 1]) + s[|s| - 1]
  }

  lemma {:induction false} SumNatAppend(a: seq<nat>, b: seq<nat>)
    ensures SumNat(a + b) == SumNat(a) + SumNat(b)
  {
    if |b| == 0 {
      assert a + b == a;
    } else {
      assert (a + b)[..|a + b| - 1] == a + b[..|b| - 1];
      SumNatAppend(a, b[..|b| - 1]);
    }
  }

  /** The number of elements of s in [lo, hi). */
  function CountIn(s: seq<nat>, lo: nat, hi: nat): nat
  {
    if |s| == 0 then 0
    else CountIn(s[..|s| - 1], lo, hi) + (if lo <= s[|s| - 1] < hi then 1 else 0)
  }

  lemma {:induction false} CountInSplit(s: seq<nat>, lo: nat, hi: nat)
    requires lo < hi
    ensures CountIn(s, lo, hi) == multiset(s)[lo] + CountIn(s, lo + 1, hi)
  {
    if |s| > 0 {
      var init := s[..|s| - 1];
      assert s == init + [s[|s| - 1]];
      CountInSplit(init, lo, hi);
    }
  }

  lemma {:induction false} CountInAll(s: seq<nat>, hi: nat)
    requires forall i :: 0 <= i < |s| ==> s[i] < hi
    ensures CountIn(s, 0, hi) == |s|
  {
    if |s| > 0 {
      CountInAll(s[..|s| - 1], hi);
    }
  }

  /** The number of occurrences of every value in [lo, hi), in ascending
      order of value (`np.bincount`): the per-value counts whose non-empty
      entries `np.unique(..., return_counts=True)` reports. */
  function BinCounts(s: seq<nat>, lo: nat, hi: nat): (r: seq<nat>)
    requires lo <= hi
    ensures |r| == hi - lo
    ensures forall k :: 0 <= k < |r| ==> r[k] == multiset(s)[lo + k]
    decreases hi - lo
  {
    if lo == hi then [] else [multiset(s)[lo]] + BinCounts(s, lo + 1, hi)
  }

  lemma {:induction false} BinCountsSum(s: seq<nat>, lo: nat, hi: nat)
    requires lo <= hi
    ensures SumNat(BinCounts(s, lo, hi)) == CountIn(s, lo, hi)
    decreases hi - lo
  {
    if lo == hi {
      if |s| > 0 { CountInEmpty(s, lo); }
    } else {
      BinCountsSum(s, lo + 1, hi);
      SumNatAppend([multiset(s)[lo]], BinCounts(s, lo + 1, hi));
      assert SumNat([multiset(s)[lo]]) == multiset(s)[lo] by {
        assert [multiset(s)[lo]][..0] == [];
      }
      CountInSplit(s, lo, hi);
    }
  }

  lemma {:induction false} CountInEmpty(s: seq<nat>, v: nat)
    ensures CountIn(s, v, v) == 0
  {
    if |s| > 0 { CountInEmpty(s[..|s| - 1], v); }
  }

  /** The array `hist` after `hist[neighbors] += 1`, when every index is below
      its length n. A fancy-index `+=` with repeated indices adds 1 only once
      per distinct index, so slot k holds 1 when k occurs and 0 otherwise; it
      is not the count of k. The array is never read afterwards. */
  function MarkedBins(s: seq<nat>, n: nat): (h: seq<real>)
    ensures |h| == n
    ensures forall k :: 0 <= k < n ==>
              && (h[k] == 1.0 <==> BinCounts(s, 0, n)[k] > 0)
              && (h[k] == 0.0 <==> BinCounts(s, 0, n)[k] == 0)
  {
    seq(n, k requires 0 <= k < n => if k in s then 1.0 else 0.0)
  }

  /** Neighbours [1, 1]: `hist` becomes [0, 1], while entry 1 occurs twice. */
  lemma MarkedBinsExample()
    ensures MarkedBins([1, 1], 2) == [0.0, 1.0]
    ensures BinCounts([1, 1], 0, 2) == [0, 2]
  {
    var s: seq<nat> := [1, 1];
    assert multiset(s)[0] == 0 && multiset(s)[1] == 2;
    assert 1 in s && 0 !in s;
  }

  /** The pairs (value, number of occurrences) of the distinct values of s
      that lie in [lo, hi), in ascending order of value: what
      `np.unique(s, return_counts=True)` returns when every value is below hi. */
  function UniqueCounts(s: seq<nat>, lo: nat, hi: nat): (r: seq<(nat, nat)>)
    requires lo <= hi
    ensures forall k :: 0 <= k < |r| ==>
              lo <= r[k].0 < hi && r[k].0 in s && r[k].1 == multiset(s)[r[k].0]
    ensures forall k, l :: 0 <= k < l < |r| ==> r[k].0 < r[l].0
    decreases hi - lo
  {
    if lo == hi then []
    else if lo in s then [(lo, multiset(s)[lo])] + UniqueCounts(s, lo + 1, hi)
    else UniqueCounts(s, lo + 1, hi)
  }

  /** Every value of s in [lo, hi) has its entry among the unique counts. */
  lemma {:induction false} UniqueCountsComplete(s: seq<nat>, lo: nat, hi: nat, v: nat)
    requires lo <= v < hi && v in s
    ensures exists k :: 0 <= k < |UniqueCounts(s, lo, hi)| && UniqueCounts(s, lo, hi)[k].0 == v
    decreases hi - lo
  {
    var r := UniqueCounts(s, lo, hi);
    if v == lo {
      assert r[0].0 == v;
    } else {
      UniqueCountsComplete(s, lo + 1, hi, v);
      var rest := UniqueCounts(s, lo + 1, hi);
      var k :| 0 <= k < |rest| && rest[k].0 == v;
      if lo in s {
        assert r[k + 1].0 == v;
      } else {
        assert r[k].0 == v;
      }
    }
  }

  /** The non-zero elements of s, in order. */
  function NonZero(s: seq<nat>): seq<nat>
  {
    if |s| == 0 then [] else (if s[0] == 0 then [] else [s[0]]) + NonZero(s[1..])
  }

  lemma {:induction false} NonZeroSum(s: seq<nat>)
    ensures SumNat(NonZero(s)) == SumNat(s)
  {
    if |s| > 0 {
      NonZeroSum(s[1..]);
      assert s == [s[0]] + s[1..];
      SumNatAppend([s[0]], s[1..]);
      SumNatAppend(if s[0] == 0 then [] else [s[0]], NonZero(s[1..]));
      assert SumNat([s[0]]) == s[0] by { assert [s[0]][..0] == []; }
    }
  }

  /** The counts np.unique reports are the bins with their empty ones removed. */
  lemma {:induction false} UniqueCountsAreNonZeroBins(s: seq<nat>, lo: nat, hi: nat)
    requires lo <= hi
    ensures Seconds(UniqueCounts(s, lo, hi)) == NonZero(BinCounts(s, lo, hi))
    decreases hi - lo
  {
    if lo < hi {
      UniqueCountsAreNonZeroBins(s, lo + 1, hi);
      var b := BinCounts(s, lo, hi);
      assert b[0] == multiset(s)[lo] && b[1..] == BinCounts(s, lo + 1, hi);
      var rest := UniqueCounts(s, lo + 1, hi);
      if lo in s {
        assert Seconds([(lo, multiset(s)[lo])] + rest) == [multiset(s)[lo]] + Seconds(rest);
      } else {
        assert multiset(s)[lo] == 0;
      }
    }
  }

  /** Counts divided by `patches_num`, as float division of each entry. */
  function Normalise(c: seq<nat>, patchesNum: nat): (h: seq<real>)
    requires patchesNum > 0
    ensures |h| == |c| && forall k :: 0 <= k < |c| ==> h[k] == c[k] as real / patchesNum as real
  {
    seq(|c|, k requires 0 <= k < |c| => c[k] as real / patchesNum as real)
  }

  lemma {:induction false} NormaliseSum(c: seq<nat>, patchesNum: nat)
    requires patchesNum > 0
    ensures Sum(Normalise(c, patchesNum)) == SumNat(c) as real / patchesNum as real
  {
    if |c| > 0 {
      var init := c[..|c| - 1];
      assert Normalise(c, patchesNum)[..|c| - 1] == Normalise(init, patchesNum);
      NormaliseSum(init, patchesNum);
    }
  }

  /** `histogram` as written. `hist = np.zeros((n,))` has one slot per
      neighbour, so `hist[neighbors] += 1` raises IndexError as soon as an
      index reaches the number of neighbours; otherwise the result is the
      count of each distinct index, in ascending order of index, divided by
      `patches_num`. */
  function Histogram(neighbors: seq<nat>, patchesNum: nat): (r: Result<seq<real>>)
    requires patchesNum > 0
    ensures r.Err? <==> exists i :: 0 <= i < |neighbors| && neighbors[i] >= |neighbors|
    ensures r.Err? ==> r.error == IndexError
    ensures r.Ok? ==>
              var u := UniqueCounts(neighbors, 0, |neighbors|);
              && |r.value| == |u|
              && forall k :: 0 <= k < |u| ==>
                   r.value[k] == multiset(neighbors)[u[k].0] as real / patchesNum as real
  {
    if exists i :: 0 <= i < |neighbors| && neighbors[i] >= |neighbors| then Err(IndexError)
    else Ok(Normalise(Seconds(UniqueCounts(neighbors, 0, |neighbors|)), patchesNum))
  }

  /** The counts in a histogram add up to the number of neighbours, so the
      histogram sums to 1 when `patches_num` is that number. */
  lemma HistogramSum(neighbors: seq<nat>, patchesNum: nat)
    requires patchesNum > 0 && Histogram(neighbors, patchesNum).Ok?
    ensures Sum(Histogram(neighbors, patchesNum).value) == |neighbors| as real / patchesNum as real
    ensures patchesNum == |neighbors| ==> Sum(Histogram(neighbors, patchesNum).value) == 1.0
  {
    var n := |neighbors|;
    var bins := BinCounts(neighbors, 0, n);
    var counts := Seconds(UniqueCounts(neighbors, 0, n));
    assert Histogram(neighbors, patchesNum).value == Normalise(counts, patchesNum);
    UniqueCountsAreNonZeroBins(neighbors, 0, n);
    NonZeroSum(bins);
    BinCountsSum(neighbors, 0, n);
    CountInAll(neighbors, n);
    assert SumNat(counts) == n;
    NormaliseSum(counts, patchesNum);
    DivideSelf(patchesNum);
  }

  /** The histogram over all K bins of a palette of size K, with a slot for
      every palette index whether it occurs or not. */
  function BinHistogram(neighbors: seq<nat>, paletteSize: nat, patchesNum: nat): (h: seq<real>)
    requires patchesNum > 0
    ensures |h| == paletteSize
    ensures forall v :: 0 <= v < paletteSize ==>
              h[v] == multiset(neighbors)[v] as real / patchesNum as real
  {
    Normalise(BinCounts(neighbors, 0, paletteSize), patchesNum)
  }

  /** Every neighbour index below the palette size: the bin histogram sums to
      the number of neighbours over `patches_num`, hence to 1 when they agree. */
  lemma BinHistogramSum(neighbors: seq<nat>, paletteSize: nat, patchesNum: nat)
    requires patchesNum > 0
    requires forall i :: 0 <= i < |neighbors| ==> neighbors[i] < paletteSize
    ensures Sum(BinHistogram(neighbors, paletteSize, patchesNum)) == |neighbors| as real / patchesNum as real
    ensures patchesNum == |neighbors| ==> Sum(BinHistogram(neighbors, paletteSize, patchesNum)) == 1.0
  {
    var bins := BinCounts(neighbors, 0, paletteSize);
    BinCountsSum(neighbors, 0, paletteSize);
    CountInAll(neighbors, paletteSize);
    assert SumNat(bins) == |neighbors|;
    NormaliseSum(bins, patchesNum);
    DivideSelf(patchesNum);
  }

  lemma DivideSelf(n: nat)
    requires n > 0
    ensures n as real / n as real == 1.0
  {
  }

  /** The histogram as written is the bin histogram over as many bins as
      there are neighbours, with its empty bins dropped. */
  lemma HistogramDropsEmptyBins(neighbors: seq<nat>, patchesNum: nat)
    requires patchesNum > 0 && Histogram(neighbors, patchesNum).Ok?
    ensures Histogram(neighbors, patchesNum).value
              == Normalise(NonZero(BinCounts(neighbors, 0, |neighbors|)), patchesNum)
  {
    UniqueCountsAreNonZeroBins(neighbors, 0, |neighbors|);
  }

  /** An image whose two patches both match palette entry 1 of a palette of
      two: the histogram as written has one bin, the bin histogram two, the
      first of them empty. */
  lemma HistogramDropsEmptyBinExample()
    ensures Histogram([1, 1], 2) == Ok([1.0])
    ensures BinHistogram([1, 1], 2, 2) == [0.0, 1.0]
  {
    var s: seq<nat> := [1, 1];
    UniqueCountsOneOne();
    assert Seconds(UniqueCounts(s, 0, 2)) == [2];
    assert !exists i :: 0 <= i < |s| && s[i] >= |s|;
    assert Histogram(s, 2) == Ok(Normalise([2], 2));
    assert Normalise([2], 2) == [1.0];
    MarkedBinsExample();
    assert BinHistogram(s, 2, 2) == Normalise([0, 2], 2);
    assert Normalise([0, 2], 2) == [0.0, 1.0];
  }

  /** Neighbours [1, 1]: np.unique reports value 1 with count 2 and nothing else. */
  lemma UniqueCountsOneOne()
    ensures UniqueCounts([1, 1], 0, 2) == [(1, 2)]
  {
    var s: seq<nat> := [1, 1];
    assert multiset(s)[1] == 2;
    assert 1 in s && 0 !in s;
    assert UniqueCounts(s, 2, 2) == [];
    assert UniqueCounts(s, 1, 2) == [(1, 2)];
  }

  /** An image whose single patch matches palette entry 1 of a palette of
      two: the histogram as written raises IndexError, the bin histogram
      puts the whole mass on entry 1. */
  lemma HistogramIndexErrorExample()
    ensures Histogram([1], 1) == Err(IndexError)
    ensures BinHistogram([1], 2, 1) == [0.0, 1.0]
  {
    var t: seq<nat> := [1];
    assert multiset(t)[0] == 0 && multiset(t)[1] == 1;
    assert t[0] >= |t|;
  }
}
