/** Dataset tools: the two batch-ordering strategies of `LoadingStrategy`
    (the interleaved one is also `feature_batches` of the classifier), the
    selection rule of the balanced subindex, and `ImageInfo`. */
module Tools {
  import opened Common

  // ---------------------------------------------------------------------
  // Interleaved access: one reused buffer, cleared and refilled per round
  // ---------------------------------------------------------------------

  /** The Python list `samples` that the interleaving generator owns. It is
      one object for the whole run: every yield hands out the same list. */
  class SampleBuffer<I> {
    var samples: seq<I>

    constructor ()
      ensures samples == []
    {
      samples := [];
    }

    /** `samples.clear()` */
    method Clear()
      modifies this
      ensures samples == []
    {
      samples := [];
    }

    /** `samples.extend(images)` */
    method Extend(images: seq<I>)
      modifies this
      ensures samples == old(samples) + images
    {
      samples := samples + images;
    }
  }

  /** The largest number of batches of any class: the length of
      `itertools.zip_longest(*classes)`. */
  function MaxBatches<I>(classes: seq<seq<seq<I>>>): (m: nat)
    ensures forall c :: 0 <= c < |classes| ==> |classes[c]| <= m
    ensures |classes| == 0 ==> m == 0
  {
    if |classes| == 0 then 0
    else
      var rest := MaxBatches(classes[..|classes| - 1]);
      var last := |classes[|classes| - 1]|;
      assert forall c :: 0 <= c < |classes| - 1 ==> classes[c] == classes[..|classes| - 1][c];
      if last > rest then last else rest
  }

  /** Some class has exactly `MaxBatches` batches: it is the maximum, not
      just a bound. */
  lemma {:induction false} MaxBatchesAttained<I>(classes: seq<seq<seq<I>>>)
    requires |classes| > 0
    ensures exists c :: 0 <= c < |classes| && |classes[c]| == MaxBatches(classes)
  {
    var n := |classes|;
    var init := classes[..n - 1];
    if n > 1 && MaxBatches(init) >= |classes[n - 1]| {
      MaxBatchesAttained(init);
      var c :| 0 <= c < |init| && |init[c]| == MaxBatches(init);
      assert classes[c] == init[c];
    } else {
      assert |classes[n - 1]| == MaxBatches(classes);
    }
  }

  /** Batch `i` of one class, or no images when the class has run out: the
      `None` that `zip_longest` pads with and the comprehension skips. */
  function BatchOrNothing<I>(batches: seq<seq<I>>, i: nat): (r: seq<I>)
    ensures i < |batches| ==> r == batches[i]
    ensures i >= |batches| ==> r == []
  {
    if i < |batches| then batches[i] else []
  }

  /** What round `i` of the interleaving holds: the images of the `i`-th batch
      of every class that has one, class by class. */
  function Round<I>(classes: seq<seq<seq<I>>>, i: nat): seq<I>
  {
    if |classes| == 0 then []
    else Round(classes[..|classes| - 1], i) + BatchOrNothing(classes[|classes| - 1], i)
  }

  lemma RoundStep<I>(classes: seq<seq<seq<I>>>, c: nat, i: nat)
    requires c < |classes|
    ensures Round(classes[..c + 1], i) == Round(classes[..c], i) + BatchOrNothing(classes[c], i)
  {
    assert classes[..c + 1][..c] == classes[..c];
  }

  /** Round `i` is empty exactly when no class has an `i`-th batch with an
      image in it. */
  lemma {:induction false} RoundEmpty<I>(classes: seq<seq<seq<I>>>, i: nat)
    ensures Round(classes, i) == [] <==>
      forall c :: 0 <= c < |classes| && i < |classes[c]| ==> classes[c][i] == []
  {
    if |classes| > 0 {
      var init := classes[..|classes| - 1];
      RoundEmpty(init, i);
      assert forall c :: 0 <= c < |init| ==> init[c] == classes[c];
    }
  }

  /** One round of the generator: `samples.clear()` and then
      `samples.extend(...)` over the chained batches of the current tuple of
      `zip_longest`, skipping the classes that have run out. */
  method FillRound<I>(buffer: SampleBuffer<I>, classes: seq<seq<seq<I>>>, i: nat)
    modifies buffer
    ensures buffer.samples == Round(classes, i)
  {
    buffer.Clear();
    for c := 0 to |classes|
      invariant buffer.samples == Round(classes[..c], i)
    {
      RoundStep(classes, c, i);
      if i < |classes[c]| {
        buffer.Extend(classes[c][i]);
      }
    }
    assert classes[..|classes|] == classes;
  }

  /** `rounds` are the first `|rounds|` rounds of the interleaving. */
  ghost predicate RoundsSoFar<I>(classes: seq<seq<seq<I>>>, rounds: seq<seq<I>>)
  {
    |rounds| == 0 ||
    (RoundsSoFar(classes, rounds[..|rounds| - 1]) && rounds[|rounds| - 1] == Round(classes, |rounds| - 1))
  }

  lemma {:induction false} RoundsSoFarAll<I>(classes: seq<seq<seq<I>>>, rounds: seq<seq<I>>)
    requires RoundsSoFar(classes, rounds)
    ensures forall i :: 0 <= i < |rounds| ==> rounds[i] == Round(classes, i)
  {
    if |rounds| > 0 {
      var init := rounds[..|rounds| - 1];
      RoundsSoFarAll(classes, init);
      assert forall i :: 0 <= i < |init| ==> rounds[i] == init[i];
    }
  }

  /** `LoadingStrategy.interleaved_accesses` and `feature_batches`. The
      generator is run to its end; `rounds[i]` is the contents of the buffer
      at the `i`-th `yield`, and `buffer` is the one list every yield shares,
      which holds the last round afterwards. */
  method InterleavedAccesses<I>(classes: seq<seq<seq<I>>>)
    returns (buffer: SampleBuffer<I>, rounds: seq<seq<I>>)
    ensures fresh(buffer)
    ensures |rounds| == MaxBatches(classes)
    ensures forall i :: 0 <= i < |rounds| ==> rounds[i] == Round(classes, i)
    ensures |rounds| == 0 ==> buffer.samples == []
    ensures |rounds| > 0 ==> buffer.samples == rounds[|rounds| - 1]
  {
    buffer := new SampleBuffer();
    buffer.Clear();
    rounds := [];
    var count := MaxBatches(classes);
    for i := 0 to count
      invariant |rounds| == i
      invariant RoundsSoFar(classes, rounds)
      invariant i == 0 ==> buffer.samples == []
      invariant i > 0 ==> buffer.samples == rounds[i - 1]
    {
      FillRound(buffer, classes, i);
      assert (rounds + [buffer.samples])[..i] == rounds;
      rounds := rounds + [buffer.samples];
    }
    RoundsSoFarAll(classes, rounds);
  }

  // ---------------------------------------------------------------------
  // Serial access and the images both strategies visit
  // ---------------------------------------------------------------------

  /** The total number of batches over all classes. */
  function TotalBatches<I>(classes: seq<seq<seq<I>>>): nat
  {
    if |classes| == 0 then 0
    else TotalBatches(classes[..|classes| - 1]) + |classes[|classes| - 1]|
  }

  /** `LoadingStrategy.serial_accessed`: every batch of class 0, then every
      batch of class 1, and so on. */
  function SerialAccessed<I>(classes: seq<seq<seq<I>>>): (r: seq<seq<I>>)
    ensures |r| == TotalBatches(classes)
  {
    if |classes| == 0 then []
    else SerialAccessed(classes[..|classes| - 1]) + classes[|classes| - 1]
  }

  /** Class `c`'s batch `j` is yielded right after all batches of the classes
      before `c` and the first `j` batches of `c`. */
  lemma {:induction false} SerialAccessedOrder<I>(classes: seq<seq<seq<I>>>, c: nat, j: nat)
    requires c < |classes| && j < |classes[c]|
    ensures TotalBatches(classes[..c]) + j < TotalBatches(classes)
    ensures SerialAccessed(classes)[TotalBatches(classes[..c]) + j] == classes[c][j]
  {
    var n := |classes|;
    var init := classes[..n - 1];
    if c == n - 1 {
      assert classes[..c] == init;
    } else {
      assert init[..c] == classes[..c];
      SerialAccessedOrder(init, c, j);
    }
  }

  /** All images of all classes in class-major order. */
  function ClassMajorImages<I>(classes: seq<seq<seq<I>>>): seq<I>
  {
    if |classes| == 0 then []
    else ClassMajorImages(classes[..|classes| - 1]) + Concat(classes[|classes| - 1])
  }

  /** Concatenating all output of the serial strategy gives the images in
      class-major order. */
  lemma {:induction false} SerialAccessedClassMajor<I>(classes: seq<seq<seq<I>>>)
    ensures Concat(SerialAccessed(classes)) == ClassMajorImages(classes)
  {
    if |classes| > 0 {
      var init := classes[..|classes| - 1];
      SerialAccessedClassMajor(init);
      ConcatAppend(SerialAccessed(init), classes[|classes| - 1]);
    }
  }

  /** The images of the first `n` rounds, in round order. */
  function RoundImages<I>(classes: seq<seq<seq<I>>>, n: nat): seq<I>
  {
    if n == 0 then [] else RoundImages(classes, n - 1) + Round(classes, n - 1)
  }

  /** The images of the first `n` batches of one class, padded as
      `zip_longest` pads it. */
  function PaddedImages<I>(batches: seq<seq<I>>, n: nat): seq<I>
  {
    if n == 0 then [] else PaddedImages(batches, n - 1) + BatchOrNothing(batches, n - 1)
  }

  lemma {:induction false} RoundImagesOfRounds<I>(classes: seq<seq<seq<I>>>, rounds: seq<seq<I>>)
    requires forall i :: 0 <= i < |rounds| ==> rounds[i] == Round(classes, i)
    ensures Concat(rounds) == RoundImages(classes, |rounds|)
  {
    if |rounds| > 0 {
      RoundImagesOfRounds(classes, rounds[..|rounds| - 1]);
    }
  }

  lemma {:induction false} RoundImagesNoClasses<I>(classes: seq<seq<seq<I>>>, n: nat)
    requires |classes| == 0
    ensures RoundImages(classes, n) == []
  {
    if n > 0 {
      RoundImagesNoClasses(classes, n - 1);
    }
  }

  lemma {:induction false} PaddedImagesPrefix<I>(batches: seq<seq<I>>, n: nat)
    ensures PaddedImages(batches, n) == Concat(batches[..if n < |batches| then n else |batches|])
  {
    if n > 0 {
      PaddedImagesPrefix(batches, n - 1);
      if n <= |batches| {
        ConcatPrefix(batches, n - 1);
      }
    }
  }

  /** Adding a class at the end of the list adds its padded images, round by
      round, to the multiset of interleaved images. */
  lemma SeqBagInterleave<I>(x: seq<I>, y: seq<I>, z: seq<I>,
                            a: seq<I>, b: seq<I>, p: seq<I>, r: seq<I>, q: seq<I>)
    requires x == a + (r + q) && y == b + r && z == p + q
    requires multiset(a) == multiset(b) + multiset(p)
    ensures multiset(x) == multiset(y) + multiset(z)
  {
  }

  /** One more round keeps the split of the interleaved images into those of
      the classes but the last and the padded batches of the last class. */
  lemma RoundImagesSplitStep<I>(classes: seq<seq<seq<I>>>, n: nat)
    requires |classes| > 0 && n > 0
    requires multiset(RoundImages(classes, n - 1))
          == multiset(RoundImages(classes[..|classes| - 1], n - 1))
           + multiset(PaddedImages(classes[|classes| - 1], n - 1))
    ensures multiset(RoundImages(classes, n))
         == multiset(RoundImages(classes[..|classes| - 1], n))
          + multiset(PaddedImages(classes[|classes| - 1], n))
  {
    var init, last := classes[..|classes| - 1], classes[|classes| - 1];
    assert Round(classes, n - 1) == Round(init, n - 1) + BatchOrNothing(last, n - 1);
    SeqBagInterleave(RoundImages(classes, n), RoundImages(init, n), PaddedImages(last, n),
      RoundImages(classes, n - 1), RoundImages(init, n - 1), PaddedImages(last, n - 1),
      Round(init, n - 1), BatchOrNothing(last, n - 1));
  }

  /** The images of `n` rounds are those of the rounds over all classes but
      the last, together with the first `n` (padded) batches of the last. */
  lemma RoundImagesSplit<I>(classes: seq<seq<seq<I>>>, n: nat)
    requires |classes| > 0
    ensures multiset(RoundImages(classes, n))
         == multiset(RoundImages(classes[..|classes| - 1], n))
          + multiset(PaddedImages(classes[|classes| - 1], n))
  {
    var k := 0;
    while k < n
      invariant k <= n
      invariant multiset(RoundImages(classes, k))
             == multiset(RoundImages(classes[..|classes| - 1], k))
              + multiset(PaddedImages(classes[|classes| - 1], k))
    {
      k := k + 1;
      RoundImagesSplitStep(classes, k);
    }
  }

  lemma RoundImagesCompleteStep<I>(classes: seq<seq<seq<I>>>, n: nat, k: nat)
    requires n >= MaxBatches(classes) && k < |classes|
    requires multiset(RoundImages(classes[..k], n)) == multiset(ClassMajorImages(classes[..k]))
    ensures multiset(RoundImages(classes[..k + 1], n)) == multiset(ClassMajorImages(classes[..k + 1]))
  {
    var cs := classes[..k + 1];
    assert cs[..|cs| - 1] == classes[..k];
    RoundImagesSplit(cs, n);
    PaddedImagesPrefix(classes[k], n);
    assert classes[k][..|classes[k]|] == classes[k];
  }

  /** Enough rounds hold every image of every class, once. */
  lemma RoundImagesComplete<I>(classes: seq<seq<seq<I>>>, n: nat)
    requires n >= MaxBatches(classes)
    ensures multiset(RoundImages(classes, n)) == multiset(ClassMajorImages(classes))
  {
    RoundImagesNoClasses(classes[..0], n);
    var k := 0;
    while k < |classes|
      invariant k <= |classes|
      invariant multiset(RoundImages(classes[..k], n)) == multiset(ClassMajorImages(classes[..k]))
    {
      RoundImagesCompleteStep(classes, n, k);
      k := k + 1;
    }
    assert classes[..|classes|] == classes;
  }

  /** The interleaved strategy visits, over all its rounds, exactly the
      images of the serial strategy: nothing is lost and nothing is
      duplicated. */
  lemma InterleavedSameImagesAsSerial<I>(classes: seq<seq<seq<I>>>, rounds: seq<seq<I>>)
    requires |rounds| == MaxBatches(classes)
    requires forall i :: 0 <= i < |rounds| ==> rounds[i] == Round(classes, i)
    ensures multiset(Concat(rounds)) == multiset(Concat(SerialAccessed(classes)))
    ensures multiset(Concat(rounds)) == multiset(ClassMajorImages(classes))
  {
    RoundImagesOfRounds(classes, rounds);
    RoundImagesComplete(classes, |rounds|);
    SerialAccessedClassMajor(classes);
  }

  // ---------------------------------------------------------------------
  // The balanced subindex of `unbiased`
  // ---------------------------------------------------------------------

  type Path = string

  /** `ClassificationTarget`. */
  datatype Target = Artist | Style | Genre

  /** `target_subindex_size`: how many paths a class keeps per target. */
  function SubindexSize(t: Target): (n: nat)
    ensures t == Artist ==> n == 330
    ensures t == Style ==> n == 280
    ensures t == Genre ==> n == 760
  {
    match t
    case Artist => 330
    case Style => 280
    case Genre => 760
  }

  /** Every drawn position lies inside a list of length `len`. */
  predicate InRange(positions: seq<nat>, len: nat)
  {
    forall k :: 0 <= k < |positions| ==> positions[k] < len
  }

  /** `positions` is a possible choice of `random.sample` of `n` elements
      out of a list of length `len`: `n` distinct positions inside it. */
  predicate IsDraw(positions: seq<nat>, n: nat, len: nat)
  {
    && |positions| == n
    && InRange(positions, len)
    && (forall k, l :: 0 <= k < l < n ==> positions[k] != positions[l])
  }

  /** The paths at the drawn positions, in draw order. */
  function Pick(paths: seq<Path>, positions: seq<nat>): (r: seq<Path>)
    requires InRange(positions, |paths|)
    ensures |r| == |positions|
    ensures forall k :: 0 <= k < |positions| ==> r[k] == paths[positions[k]]
  {
    if |positions| == 0 then []
    else Pick(paths, positions[..|positions| - 1]) + [paths[positions[|positions| - 1]]]
  }

  /** No path occurs twice in the list. */
  predicate NoDuplicates(paths: seq<Path>)
  {
    forall k, l :: 0 <= k < l < |paths| ==> paths[k] != paths[l]
  }

  /** A draw from a list without duplicates has no duplicates either:
      nothing is taken twice. */
  lemma PickNoDuplicates(paths: seq<Path>, positions: seq<nat>)
    requires IsDraw(positions, |positions|, |paths|) && NoDuplicates(paths)
    ensures NoDuplicates(Pick(paths, positions))
  {
    var r := Pick(paths, positions);
    forall k, l | 0 <= k < l < |r|
      ensures r[k] != r[l]
    {
      var a, b := positions[k], positions[l];
      assert a != b;
      if a < b {
        assert paths[a] != paths[b];
      } else {
        assert paths[b] != paths[a];
      }
    }
  }

  /** `sample(paths, size)` for one class, given the positions drawn:
      `size` paths of the class's own list, none of them taken twice. */
  function SubsampleOne(paths: seq<Path>, size: nat, positions: seq<nat>): (r: seq<Path>)
    requires IsDraw(positions, size, |paths|)
    ensures |r| == size
    ensures forall k :: 0 <= k < size ==> r[k] == paths[positions[k]] && r[k] in paths
    ensures NoDuplicates(paths) ==> NoDuplicates(r)
  {
    if NoDuplicates(paths) then PickNoDuplicates(paths, positions); Pick(paths, positions)
    else Pick(paths, positions)
  }

  /** A class of `classPaths` that has at least `size` paths comes with a
      draw of `size` of its positions. */
  predicate DrawsFor(classPaths: map<Class, seq<Path>>, size: nat, draws: map<Class, seq<nat>>)
  {
    forall c :: c in classPaths && |classPaths[c]| >= size ==>
      c in draws && IsDraw(draws[c], size, |classPaths[c]|)
  }

  /** The comprehension of `unbiased` for one target: a class is kept when it
      has at least `size` paths, and then keeps the `size` paths of its draw. */
  function SubsampleClasses(classPaths: map<Class, seq<Path>>, size: nat,
                            draws: map<Class, seq<nat>>): (r: map<Class, seq<Path>>)
    requires DrawsFor(classPaths, size, draws)
    ensures forall c :: c in r <==> c in classPaths && |classPaths[c]| >= size
    ensures forall c :: c in r ==>
      && c in classPaths && c in draws && IsDraw(draws[c], size, |classPaths[c]|)
      && |r[c]| == size
      && (forall k :: 0 <= k < size ==> r[c][k] == classPaths[c][draws[c][k]])
      && (NoDuplicates(classPaths[c]) ==> NoDuplicates(r[c]))
  {
    map c | c in classPaths && |classPaths[c]| >= size :: SubsampleOne(classPaths[c], size, draws[c])
  }

  /** A draw for every target and every class large enough for it. */
  predicate DrawsCover(index: map<Target, map<Class, seq<Path>>>,
                       draws: map<Target, map<Class, seq<nat>>>)
  {
    forall t :: t in index ==> t in draws && DrawsFor(index[t], SubindexSize(t), draws[t])
  }

  /** The subindex that `unbiased` builds from the full index: for every
      target, the classes with at least `SubindexSize(target)` paths, each
      cut down to exactly that many paths of its own list. */
  function Unbiased(index: map<Target, map<Class, seq<Path>>>,
                    draws: map<Target, map<Class, seq<nat>>>): (r: map<Target, map<Class, seq<Path>>>)
    requires DrawsCover(index, draws)
    ensures r.Keys == index.Keys
    ensures forall t :: t in r ==>
      forall c :: c in r[t] <==> c in index[t] && |index[t][c]| >= SubindexSize(t)
    ensures forall t :: t in r ==>
      forall c :: c in r[t] ==>
        && |r[t][c]| == SubindexSize(t)
        && (forall k :: 0 <= k < SubindexSize(t) ==> r[t][c][k] in index[t][c])
        && (NoDuplicates(index[t][c]) ==> NoDuplicates(r[t][c]))
  {
    map t | t in index :: SubsampleClasses(index[t], SubindexSize(t), draws[t])
  }

  // ---------------------------------------------------------------------
  // Image information
  // ---------------------------------------------------------------------

  /** `ImageInfo`: the resolution of one image. */
  datatype ImageInfo = ImageInfo(width: int, height: int)
  {
    /** `ImageInfo.area`: the number of pixels. */
    function Area(): (a: int)
      ensures width >= 0 && height >= 0 ==> a >= 0
      ensures a == 0 <==> width == 0 || height == 0
      ensures width >= 0 && height >= 1 ==> a >= width
      ensures height >= 0 && width >= 1 ==> a >= height
    {
      width * height
    }
  }
}
