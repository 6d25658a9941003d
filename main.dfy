/** The decision rules, the class-profile accumulation and the validation
    counters of the training and evaluation driver (main.py). */
module Classification {
  import opened Common

  function Abs(x: real): real { if x < 0.0 then -x else x }

  // ---------------------------------------------------------------------
  // Distances

  /** The elementwise absolute differences of two equally long vectors. */
  function AbsDiff(a: seq<real>, b: seq<real>): (d: seq<real>)
    requires |a| == |b|
    ensures |d| == |a| && forall k :: 0 <= k < |a| ==> d[k] == Abs(a[k] - b[k])
  {
    seq(|a|, k requires 0 <= k < |a| => Abs(a[k] - b[k]))
  }

  /** `abs(cls_histogram - histogram).sum()`: the L1 distance. */
  function L1(a: seq<real>, b: seq<real>): real
    requires |a| == |b|
  {
    Sum(AbsDiff(a, b))
  }

  /** A sum of non-negative reals is non-negative, and it is zero only when
      every term is zero. */
  lemma {:induction false} SumNonNegative(s: seq<real>)
    requires forall k :: 0 <= k < |s| ==> s[k] >= 0.0
    ensures Sum(s) >= 0.0
    ensures Sum(s) == 0.0 ==> forall k :: 0 <= k < |s| ==> s[k] == 0.0
  {
    if |s| > 0 {
      SumNonNegative(s[..|s| - 1]);
    }
  }

  /** The L1 distance is non-negative, symmetric, and zero exactly when the
      two histograms are equal. */
  lemma L1Metric(a: seq<real>, b: seq<real>)
    requires |a| == |b|
    ensures L1(a, b) >= 0.0
    ensures L1(a, b) == L1(b, a)
    ensures L1(a, b) == 0.0 <==> a == b
  {
    SumNonNegative(AbsDiff(a, b));
    assert AbsDiff(a, b) == AbsDiff(b, a);
    if a == b {
      assert AbsDiff(a, b) == seq(|a|, k => 0.0);
      SumZeros(|a|);
    }
    if L1(a, b) == 0.0 {
      assert forall k :: 0 <= k < |a| ==> AbsDiff(a, b)[k] == 0.0;
      assert forall k :: 0 <= k < |a| ==> a[k] == b[k];
    }
  }

  lemma {:induction false} SumZeros(n: nat)
    ensures Sum(seq(n, k => 0.0)) == 0.0
  {
    if n > 0 {
      assert seq(n, k => 0.0)[..n - 1] == seq(n - 1, k => 0.0);
      SumZeros(n - 1);
    }
  }

  // ---------------------------------------------------------------------
  // Argmin in iteration order

  /** k is the first position holding the least score. */
  predicate IsFirstMin(scores: seq<real>, k: nat)
  {
    && k < |scores|
    && (forall j :: 0 <= j < |scores| ==> scores[k] <= scores[j])
    && (forall j :: 0 <= j < k ==> scores[j] > scores[k])
  }

  /** The position Python's `min(d, key=d.get)` settles on: it walks the keys
      in order and replaces its candidate only by a strictly smaller score. */
  function FirstMin(scores: seq<real>): (k: nat)
    requires |scores| > 0
    ensures IsFirstMin(scores, k)
  {
    if |scores| == 1 then 0
    else
      var init := scores[..|scores| - 1];
      var k := FirstMin(init);
      assert IsFirstMin(init, k);
      var last := |scores| - 1;
      if scores[last] < scores[k] then
        assert IsFirstMin(scores, last);
        last
      else
        assert IsFirstMin(scores, k);
        k
  }

  /** `min(d, key=d.get)` over a dict given as its (key, score) pairs in
      iteration order; `min` of an empty dict raises ValueError. */
  function ArgMinKey(pairs: seq<(Class, real)>): (r: Result<Class>)
    ensures r.Err? <==> |pairs| == 0
    ensures r.Err? ==> r.error == ValueError
    ensures r.Ok? ==> exists k :: 0 <= k < |pairs| && IsFirstMin(Seconds(pairs), k) && pairs[k].0 == r.value
  {
    if |pairs| == 0 then Err(ValueError) else Ok(pairs[FirstMin(Seconds(pairs))].0)
  }

  // ---------------------------------------------------------------------
  // Global-palette decision (predict1)

  /** The `difference` dict of predict1: each class with the L1 distance of
      its profile to the query histogram, in the order of the classes. */
  function Differences(query: seq<real>, classHistograms: seq<(Class, seq<real>)>): (d: seq<(Class, real)>)
    requires forall k :: 0 <= k < |classHistograms| ==> |classHistograms[k].1| == |query|
    ensures |d| == |classHistograms|
    ensures forall k :: 0 <= k < |d| ==>
              d[k] == (classHistograms[k].0, L1(classHistograms[k].1, query))
  {
    seq(|classHistograms|, k requires 0 <= k < |classHistograms| =>
      (classHistograms[k].0, L1(classHistograms[k].1, query)))
  }

  /** predict1 on the query histogram that match1 computed: the first class
      in order whose profile is at least distance from the query of all. */
  function Predict1(query: seq<real>, classHistograms: seq<(Class, seq<real>)>): (r: Result<Class>)
    requires forall k :: 0 <= k < |classHistograms| ==> |classHistograms[k].1| == |query|
    ensures r.Err? <==> |classHistograms| == 0
    ensures r.Err? ==> r.error == ValueError
    ensures r.Ok? ==>
              exists k ::
                && 0 <= k < |classHistograms| && classHistograms[k].0 == r.value
                && (forall j :: 0 <= j < |classHistograms| ==>
                      L1(classHistograms[k].1, query) <= L1(classHistograms[j].1, query))
                && (forall j :: 0 <= j < k ==>
                      L1(classHistograms[j].1, query) > L1(classHistograms[k].1, query))
  {
    var d := Differences(query, classHistograms);
    var r := ArgMinKey(d);
    if r.Ok? then
      var k :| 0 <= k < |d| && IsFirstMin(Seconds(d), k) && d[k].0 == r.value;
      assert 0 <= k < |classHistograms| && classHistograms[k].0 == r.value;
      r
    else r
  }

  /** When the query equals some class profile exactly, the predicted class's
      profile equals the query too (the first such class wins). */
  lemma Predict1ExactMatch(query: seq<real>, classHistograms: seq<(Class, seq<real>)>, m: nat)
    requires forall k :: 0 <= k < |classHistograms| ==> |classHistograms[k].1| == |query|
    requires m < |classHistograms| && classHistograms[m].1 == query
    ensures Predict1(query, classHistograms).Ok?
    ensures exists k ::
              && 0 <= k <= m && classHistograms[k].0 == Predict1(query, classHistograms).value
              && classHistograms[k].1 == query
  {
    var r := Predict1(query, classHistograms);
    var k :| 0 <= k < |classHistograms| && classHistograms[k].0 == r.value
              && (forall j :: 0 <= j < |classHistograms| ==>
                    L1(classHistograms[k].1, query) <= L1(classHistograms[j].1, query))
              && (forall j :: 0 <= j < k ==>
                    L1(classHistograms[j].1, query) > L1(classHistograms[k].1, query));
    L1Metric(classHistograms[m].1, query);
    L1Metric(classHistograms[k].1, query);
    assert L1(classHistograms[k].1, query) == 0.0;
  }

  // ---------------------------------------------------------------------
  // Local-palette decision (predict2)

  /** The `sums` dict of predict2: each class with the sum of the
      nearest-neighbour distances of the query's patches in its own palette. */
  function DistanceSums(matches: seq<(Class, seq<real>)>): (d: seq<(Class, real)>)
    ensures |d| == |matches|
    ensures forall k :: 0 <= k < |d| ==> d[k] == (matches[k].0, Sum(matches[k].1))
  {
    seq(|matches|, k requires 0 <= k < |matches| => (matches[k].0, Sum(matches[k].1)))
  }

  /** predict2 on the distances that match2 returned for every class: the
      first class in order with the least summed distance. */
  function Predict2(matches: seq<(Class, seq<real>)>): (r: Result<Class>)
    ensures r.Err? <==> |matches| == 0
    ensures r.Err? ==> r.error == ValueError
    ensures r.Ok? ==>
              exists k ::
                && 0 <= k < |matches| && matches[k].0 == r.value
                && (forall j :: 0 <= j < |matches| ==> Sum(matches[k].1) <= Sum(matches[j].1))
                && (forall j :: 0 <= j < k ==> Sum(matches[j].1) > Sum(matches[k].1))
  {
    var d := DistanceSums(matches);
    var r := ArgMinKey(d);
    if r.Ok? then
      var k :| 0 <= k < |d| && IsFirstMin(Seconds(d), k) && d[k].0 == r.value;
      assert 0 <= k < |matches| && matches[k].0 == r.value;
      r
    else r
  }

  // ---------------------------------------------------------------------
  // Class profiles (method1, averaged class histograms)

  /** What match1 returns for one image: its histogram and its patch count. */
  datatype ImageMatch = ImageMatch(histogram: seq<real>, patchCount: nat)

  function Zeros(n: nat): (z: seq<real>)
    ensures |z| == n && forall k :: 0 <= k < n ==> z[k] == 0.0
  {
    seq(n, k => 0.0)
  }

  /** In-place `a += b` of two equally long arrays. */
  function VecAdd(a: seq<real>, b: seq<real>): (c: seq<real>)
    requires |a| == |b|
    ensures |c| == |a| && forall k :: 0 <= k < |a| ==> c[k] == a[k] + b[k]
  {
    seq(|a|, k requires 0 <= k < |a| => a[k] + b[k])
  }

  /** In-place `a /= t`. */
  function Scale(a: seq<real>, t: nat): (c: seq<real>)
    requires t > 0
    ensures |c| == |a| && forall k :: 0 <= k < |a| ==> c[k] == a[k] / t as real
  {
    seq(|a|, k requires 0 <= k < |a| => a[k] / t as real)
  }

  predicate HistogramsOfSize(images: seq<ImageMatch>, size: nat)
  {
    forall j :: 0 <= j < |images| ==> |images[j].histogram| == size
  }

  /** The sum of the patch counts of the images. */
  function TotalPatches(images: seq<ImageMatch>): nat
  {
    if |images| == 0 then 0
    else TotalPatches(images[..|images| - 1]) + images[|images| - 1].patchCount
  }

  /** The elementwise sum of the images' histograms. */
  function HistogramTotal(images: seq<ImageMatch>, size: nat): (h: seq<real>)
    requires HistogramsOfSize(images, size)
    ensures |h| == size
  {
    if |images| == 0 then Zeros(size)
    else VecAdd(HistogramTotal(images[..|images| - 1], size), images[|images| - 1].histogram)
  }

  /** The class profile the accumulation loop leaves: the sum of the per-image
      histograms divided, as written, by the total patch count. With a total
      of 0 the division yields NaN or infinity, which None stands for. */
  function ClassAverage(batches: seq<seq<ImageMatch>>, size: nat): Option<seq<real>>
    requires HistogramsOfSize(Concat(batches), size)
  {
    var images := Concat(batches);
    var total := TotalPatches(images);
    if total == 0 then None else Some(Scale(HistogramTotal(images, size), total))
  }

  lemma {:induction false} ConcatHistogramsOfSize(batches: seq<seq<ImageMatch>>, size: nat)
    requires forall b, j :: 0 <= b < |batches| && 0 <= j < |batches[b]| ==>
               |batches[b][j].histogram| == size
    ensures HistogramsOfSize(Concat(batches), size)
  {
    if |batches| > 0 {
      ConcatHistogramsOfSize(batches[..|batches| - 1], size);
      var init: seq<ImageMatch> := Concat(batches[..|batches| - 1]);
      var last: seq<ImageMatch> := batches[|batches| - 1];
      forall j | 0 <= j < |init + last| ensures |(init + last)[j].histogram| == size {
        if j >= |init| { assert (init + last)[j] == last[j - |init|]; }
      }
    }
  }

  /** One more image continues both running sums. */
  lemma AppendImage(images: seq<ImageMatch>, image: ImageMatch, size: nat)
    requires HistogramsOfSize(images, size) && |image.histogram| == size
    ensures HistogramsOfSize(images + [image], size)
    ensures TotalPatches(images + [image]) == TotalPatches(images) + image.patchCount
    ensures HistogramTotal(images + [image], size) == VecAdd(HistogramTotal(images, size), image.histogram)
  {
    assert (images + [image])[..|images|] == images;
  }

  /** The inner loop over the images of one batch, continuing the running
      sums left by the images `done` before it. */
  method AccumulateBatch(batch: seq<ImageMatch>, size: nat, sum: seq<real>, total: nat,
                         ghost done: seq<ImageMatch>)
    returns (sum': seq<real>, total': nat)
    requires forall j :: 0 <= j < |batch| ==> |batch[j].histogram| == size
    requires HistogramsOfSize(done, size)
    requires total == TotalPatches(done) && sum == HistogramTotal(done, size)
    ensures HistogramsOfSize(done + batch, size)
    ensures total' == TotalPatches(done + batch) && sum' == HistogramTotal(done + batch, size)
  {
    sum', total' := sum, total;
    assert done + batch[..0] == done;
    for j := 0 to |batch|
      invariant HistogramsOfSize(done + batch[..j], size)
      invariant total' == TotalPatches(done + batch[..j])
      invariant sum' == HistogramTotal(done + batch[..j], size)
    {
      var image := batch[j];
      AppendImage(done + batch[..j], image, size);
      assert done + batch[..j + 1] == (done + batch[..j]) + [image];
      total' := total' + image.patchCount;
      sum' := VecAdd(sum', image.histogram);
    }
    assert batch[..|batch|] == batch;
  }

  /** The accumulation loop for one class: every image of every batch adds its
      patch count to `total_patch_count` and its histogram to `avg_histogram`;
      at the end the sum is divided by the total. */
  method AccumulateClass(batches: seq<seq<ImageMatch>>, size: nat)
    returns (avg: Option<seq<real>>, total: nat)
    requires forall b, j :: 0 <= b < |batches| && 0 <= j < |batches[b]| ==>
               |batches[b][j].histogram| == size
    ensures HistogramsOfSize(Concat(batches), size)
    ensures total == TotalPatches(Concat(batches))
    ensures avg == ClassAverage(batches, size)
  {
    ConcatHistogramsOfSize(batches, size);
    var sum := Zeros(size);
    total := 0;
    for b := 0 to |batches|
      invariant HistogramsOfSize(Concat(batches[..b]), size)
      invariant total == TotalPatches(Concat(batches[..b]))
      invariant sum == HistogramTotal(Concat(batches[..b]), size)
    {
      sum, total := AccumulateBatch(batches[b], size, sum, total, Concat(batches[..b]));
      ConcatPrefix(batches, b);
    }
    assert batches[..|batches|] == batches;
    if total == 0 {
      avg := None;
    } else {
      avg := Some(Scale(sum, total));
    }
  }

  /** The sum of the elementwise total is the total of the sums. */
  lemma {:induction false} HistogramTotalSum(images: seq<ImageMatch>, size: nat)
    requires HistogramsOfSize(images, size)
    ensures Sum(HistogramTotal(images, size)) == SumOfSums(images)
  {
    if |images| == 0 {
      SumZeros(size);
      assert Zeros(size) == seq(size, k => 0.0);
    } else {
      var init := images[..|images| - 1];
      HistogramTotalSum(init, size);
      SumVecAdd(HistogramTotal(init, size), images[|images| - 1].histogram);
    }
  }

  /** The sum of the sums of the images' histograms. */
  function SumOfSums(images: seq<ImageMatch>): real
  {
    if |images| == 0 then 0.0
    else SumOfSums(images[..|images| - 1]) + Sum(images[|images| - 1].histogram)
  }

  lemma {:induction false} SumVecAdd(a: seq<real>, b: seq<real>)
    requires |a| == |b|
    ensures Sum(VecAdd(a, b)) == Sum(a) + Sum(b)
  {
    if |a| > 0 {
      var n := |a| - 1;
      assert VecAdd(a, b)[..n] == VecAdd(a[..n], b[..n]);
      SumVecAdd(a[..n], b[..n]);
    }
  }

  lemma {:induction false} SumScale(a: seq<real>, t: nat)
    requires t > 0
    ensures Sum(Scale(a, t)) == Sum(a) / t as real
  {
    if |a| > 0 {
      var n := |a| - 1;
      assert Scale(a, t)[..n] == Scale(a[..n], t);
      SumScale(a[..n], t);
    }
  }

  lemma {:induction false} SumOfUnitSums(images: seq<ImageMatch>)
    requires forall j :: 0 <= j < |images| ==> Sum(images[j].histogram) == 1.0
    ensures SumOfSums(images) == |images| as real
  {
    if |images| > 0 {
      SumOfUnitSums(images[..|images| - 1]);
    }
  }

  /** The unit mismatch of the profile rule: when every per-image histogram
      is normalised (sums to 1), the profile sums to the number of images
      over the number of patches, not to 1. */
  lemma ClassAverageMass(batches: seq<seq<ImageMatch>>, size: nat)
    requires HistogramsOfSize(Concat(batches), size)
    requires forall j :: 0 <= j < |Concat(batches)| ==> Sum(Concat(batches)[j].histogram) == 1.0
    requires TotalPatches(Concat(batches)) > 0
    ensures ClassAverage(batches, size).Some?
    ensures Sum(ClassAverage(batches, size).value)
              == |Concat(batches)| as real / TotalPatches(Concat(batches)) as real
  {
    var images := Concat(batches);
    HistogramTotalSum(images, size);
    SumOfUnitSums(images);
    SumScale(HistogramTotal(images, size), TotalPatches(images));
  }

  /** The outer loop of the profile computation: one averaged histogram per
      class, stored under the class's name, in the order of the classes. */
  method ClassProfiles(classes: seq<(Class, seq<seq<ImageMatch>>)>, size: nat)
    returns (profiles: seq<(Class, Option<seq<real>>)>)
    requires forall c, b, j ::
               0 <= c < |classes| && 0 <= b < |classes[c].1| && 0 <= j < |classes[c].1[b]| ==>
                 |classes[c].1[b][j].histogram| == size
    ensures |profiles| == |classes|
    ensures forall c :: 0 <= c < |classes| ==>
              HistogramsOfSize(Concat(classes[c].1), size)
              && profiles[c] == (classes[c].0, ClassAverage(classes[c].1, size))
  {
    profiles := [];
    for c := 0 to |classes|
      invariant |profiles| == c
      invariant forall d :: 0 <= d < c ==>
                  HistogramsOfSize(Concat(classes[d].1), size)
                  && profiles[d] == (classes[d].0, ClassAverage(classes[d].1, size))
    {
      var avg, _ := AccumulateClass(classes[c].1, size);
      profiles := profiles + [(classes[c].0, avg)];
    }
  }

  // ---------------------------------------------------------------------
  // Validation

  /** A validation entry as the loop meets it: its image file is missing
      (`FileNotFoundError`), or it opened and the classifier produced a
      prediction (or raised) for an entry of the given true class. */
  datatype Entry = Missing | Opened(prediction: Result<Class>, target: Class)

  datatype Tally = Tally(correct: nat, all: nat)

  /** The number of entries that opened. */
  function OpenedCount(entries: seq<Entry>): nat
  {
    if |entries| == 0 then 0
    else OpenedCount(entries[..|entries| - 1]) + (if entries[|entries| - 1].Opened? then 1 else 0)
  }

  /** The number of entries that opened and were predicted correctly. */
  function CorrectCount(entries: seq<Entry>): nat
  {
    if |entries| == 0 then 0
    else
      var e := entries[|entries| - 1];
      CorrectCount(entries[..|entries| - 1])
        + (if e.Opened? && e.prediction.Ok? && e.prediction.value == e.target then 1 else 0)
  }

  /** The entry opened but the classifier raised, which no `except` catches. */
  predicate Fails(e: Entry) { e.Opened? && e.prediction.Err? }

  /** The validation loops of method1 and method2 over the (sampled) entries:
      a missing file is skipped; otherwise `correct` grows by one for a right
      prediction and `all_entries` by one in any case. An exception other
      than FileNotFoundError ends the run. `progress` holds the running
      accuracies method2 prints after each counted entry. */
  method ValidationLoop(entries: seq<Entry>) returns (r: Result<Tally>, progress: seq<real>)
    ensures r.Err? <==> exists i :: 0 <= i < |entries| && Fails(entries[i])
    ensures r.Err? ==>
              exists i ::
                && 0 <= i < |entries| && Fails(entries[i])
                && r.error == entries[i].prediction.error
                && forall j :: 0 <= j < i ==> !Fails(entries[j])
    ensures r.Ok? ==> r.value == Tally(CorrectCount(entries), OpenedCount(entries))
    ensures r.Ok? ==> r.value.correct <= r.value.all && |progress| == r.value.all
    ensures r.Ok? && r.value.all > 0 ==>
              progress[|progress| - 1] == r.value.correct as real / r.value.all as real
    ensures forall k :: 0 <= k < |progress| ==> 0.0 <= progress[k] <= 1.0
  {
    var correct, all := 0, 0;
    progress := [];
    for i := 0 to |entries|
      invariant forall j :: 0 <= j < i ==> !Fails(entries[j])
      invariant correct == CorrectCount(entries[..i]) && all == OpenedCount(entries[..i])
      invariant correct <= all && |progress| == all
      invariant all > 0 ==> progress[|progress| - 1] == correct as real / all as real
      invariant forall k :: 0 <= k < |progress| ==> 0.0 <= progress[k] <= 1.0
    {
      assert entries[..i + 1][..i] == entries[..i];
      match entries[i]
      case Missing =>
      case Opened(prediction, target) =>
        if prediction.Err? {
          assert Fails(entries[i]);
          return Err(prediction.error), progress;
        }
        correct := correct + (if prediction.value == target then 1 else 0);
        all := all + 1;
        RatioInUnit(correct, all);
        progress := progress + [correct as real / all as real];
    }
    assert entries[..|entries|] == entries;
    r := Ok(Tally(correct, all));
  }

  /** Counting is additive over a split of the entries. */
  lemma {:induction false} CountsAppend(a: seq<Entry>, b: seq<Entry>)
    ensures OpenedCount(a + b) == OpenedCount(a) + OpenedCount(b)
    ensures CorrectCount(a + b) == CorrectCount(a) + CorrectCount(b)
  {
    if |b| == 0 {
      assert a + b == a;
    } else {
      assert (a + b)[..|a + b| - 1] == a + b[..|b| - 1];
      assert (a + b)[|a + b| - 1] == b[|b| - 1];
      CountsAppend(a, b[..|b| - 1]);
    }
  }

  /** A missing file changes neither counter, wherever it stands. */
  lemma MissingChangesNothing(a: seq<Entry>, b: seq<Entry>)
    ensures OpenedCount(a + [Missing] + b) == OpenedCount(a + b)
    ensures CorrectCount(a + [Missing] + b) == CorrectCount(a + b)
  {
    CountsAppend(a + [Missing], b);
    CountsAppend(a, [Missing]);
    CountsAppend(a, b);
    var m: seq<Entry> := [Missing];
    assert m[..0] == [];
  }

  lemma RatioInUnit(part: nat, whole: nat)
    requires part <= whole && whole > 0
    ensures 0.0 <= part as real / whole as real <= 1.0
  {
  }

  /** `print(correct / all_entries)`: ZeroDivisionError when no entry opened. */
  function Accuracy(t: Tally): (r: Result<real>)
    ensures r.Err? <==> t.all == 0
    ensures r.Err? ==> r.error == ZeroDivisionError
    ensures r.Ok? && t.correct <= t.all ==> 0.0 <= r.value <= 1.0
    ensures r.Ok? && t.correct == t.all ==> r.value == 1.0
  {
    if t.all == 0 then Err(ZeroDivisionError)
    else
      var ratio := t.correct as real / t.all as real;
      if t.correct <= t.all then RatioInUnit(t.correct, t.all); Ok(ratio) else Ok(ratio)
  }
}
