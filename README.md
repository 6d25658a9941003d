# Bag-of-visual-words painting classifier: a Dafny model of its core

The modelled system classifies paintings by artist, style or genre. Each
image is cut into square patches of 16 × 16 pixels. Every patch is matched
against a palette (a codebook) of typical patches, and the image becomes a
histogram of palette entries. Two decision rules pick a class:

- `predict1` takes the class whose averaged profile histogram is nearest in
  L1 distance.
- `predict2` takes the class whose own palette gives the smallest summed
  nearest-neighbour distance.

A validation loop counts correct predictions. Tools order the per-class
batches in two ways, interleaved or serial, and build a balanced subindex of
the dataset.

The model has four modules:

- `Common` (common.dfy): the exceptions the code can raise, `Result` and
  `Option` wrappers, and sums and concatenations of sequences.
- `Utils` (utils.dfy): `get_patches` with `config.random` false, and
  `histogram`.
  - The stride search and the sliding window are imperative methods with
    loop invariants.
  - The histogram is a function over its neighbour indices.
  - There is a corrected bin histogram for the finding below.
- `Classification` (main.dfy): `predict1`, `predict2`, the class-profile
  accumulation of `method1`, and the validation counters of `method1` and
  `method2`.
  - Python dicts, which keep insertion order, become sequences of
    (class, value) pairs.
  - `min(d, key=d.get)` becomes the first position of the least score.
- `Tools` (tools.dfy): the interleaved and serial loading strategies, the
  selection rule of `unbiased`, and `ImageInfo.area`.
  - The interleaving generator's one reused list is a class, `SampleBuffer`,
    whose `samples` field the methods reassign.
  - `feature_batches` in main.py is the same code and is modelled by the same
    method.

An exception that ends an operation becomes an `Err` value of `Result`. The
inputs that come from code outside these files enter as plain parameters:

- the nearest-neighbour indices and distances of the patches;
- the per-image (histogram, patch count) pairs of `match1`;
- the per-class batch sequences of the loader;
- the positions chosen by `random.sample`.

## Model

| member | source | states |
|---|---|---|
| Utils.Window | utils.py:75-79 | The block at a corner, flattened, has PatchSize·PatchSize·3 = 768 values. |
| Utils.WindowAt | utils.py:75-79 | Pixel (dy, dx, c) of the block sits at offset (dy·16 + dx)·3 + c of the flattened patch, which is C (row-major) order of the reshape. |
| Utils.ComputeStrides | utils.py:61-69 | The while loop terminates for every coverage > 0. The column stride stays 1 because `iter` stays 0. For coverage ≥ 1 the row stride stays 1. Otherwise the row stride minus one is the smallest n ≥ 1 with 1/n ≤ coverage, and every smaller n has coverage above the target. |
| Utils.StrideSearchResultUnique | utils.py:61-69 | This characterisation of the loop's outcome admits exactly one row stride per target. |
| Utils.RangeStep | utils.py:73-74 | The k-th value k·step of `range(0, n, step)` exists exactly when k is below the range's length. |
| Utils.SlidingWindow | utils.py:72-80 | There are ((H−16)/stride_y + 1)·((W−16)/stride_x + 1) patches, each of length 768. Patch i is the window at corner row i / cols and corner column i % cols, so the patches follow row-major order of their upper-left corners. |
| Utils.GetPatches | utils.py:47-81 | An image smaller than 16 in either dimension fails the assertion. A reshape of a block without 3 channels raises ValueError. Otherwise the strides are those of the stride search and the patches are the row-major windows. A 16 × 16 image gives exactly one patch. |
| Utils.BinCounts | utils.py:98 | The per-value counts (`np.bincount`) whose non-empty entries `np.unique` reports: entry k over [lo, hi) is the number of occurrences of lo + k. |
| Utils.MarkedBins | utils.py:96-97 | The dead array `hist` after `hist[neighbors] += 1`: slot k is 1 exactly when k occurs (its count is positive) and 0 exactly when it does not, because a repeated fancy index is incremented once. |
| Utils.MarkedBinsExample | utils.py:96-97 | Neighbours [1, 1] leave `hist` as [0, 1], while the count of entry 1 is 2. |
| Utils.UniqueCounts | utils.py:98 | Each pair is a value in [lo, hi) that occurs, with its number of occurrences, and the values strictly ascend. |
| Utils.UniqueCountsComplete | utils.py:98 | Every value in [lo, hi) that occurs has its pair, so nothing is missing from the unique counts. |
| Utils.UniqueCountsAreNonZeroBins | utils.py:98 | The counts np.unique reports are the bins with their empty ones removed. |
| Utils.Normalise | utils.py:99-100 | Each count is divided, as a float, by `patches_num`; what that means for the total is stated by Utils.NormaliseSum. |
| Utils.NormaliseSum | utils.py:99-100 | Dividing every count by `patches_num` divides their sum by `patches_num`. |
| Utils.Histogram | utils.py:94-102 | It raises IndexError exactly when some neighbour index reaches the number of neighbours. Otherwise it has one entry per distinct index, in ascending index order, and each entry is that index's count over `patches_num`. |
| Utils.HistogramSum | utils.py:95-100 | The histogram sums to (number of neighbours)/`patches_num`, hence to 1 when `patches_num` is that number. |
| Utils.HistogramDropsEmptyBins | utils.py:98-100 | The histogram as written is the per-value count vector over the values 0 to n−1 (n the number of neighbours), with its zero entries removed, each divided by `patches_num`. |
| Utils.HistogramDropsEmptyBinExample | utils.py:96-98 | Two patches both matching entry 1 of a palette of two give the one-bin histogram [1.0]; the palette-length histogram is [0.0, 1.0]. |
| Utils.HistogramIndexErrorExample | utils.py:96-97 | One patch matching entry 1 of a palette of two raises IndexError; the palette-length histogram is [0.0, 1.0]. |
| Utils.BinHistogram | utils.py:94-102 | Corrected histogram: it has one slot per palette entry, and slot v is v's count over `patches_num`. |
| Utils.BinHistogramSum | utils.py:95-100 | With every index inside the palette, the corrected histogram sums to (number of neighbours)/`patches_num`, hence to 1 when they agree. |
| Classification.AbsDiff | main.py:56 | `abs(cls_histogram - histogram)` is the elementwise absolute difference; its sum is a distance by Classification.L1Metric. |
| Classification.L1Metric | main.py:56 | The L1 distance is non-negative and symmetric, and it is zero exactly when the two histograms are equal. |
| Classification.FirstMin | main.py:58 | `min` over keys in order gives a position whose score is at most every score and strictly below every earlier one (the first key wins a tie). |
| Classification.ArgMinKey | main.py:58 | `min(d, key=d.get)` raises ValueError exactly for an empty dict. Otherwise it returns the key at the first least score. |
| Classification.Differences | main.py:54-56 | The `difference` dict pairs each class, in order, with its profile's L1 distance to the query; Classification.Predict1 states which class its argmin picks. |
| Classification.Predict1 | main.py:47-58 | ValueError exactly when there are no class histograms. Otherwise the result is a class whose L1 distance is at most every class's, and every earlier class is strictly farther. |
| Classification.Predict1ExactMatch | main.py:54-58 | When the query equals some profile, the prediction is a class at or before it whose profile equals the query. |
| Classification.DistanceSums | main.py:159 | The `sums` dict pairs each class, in order, with the sum of its match distances; Classification.Predict2 states which class its argmin picks. |
| Classification.Predict2 | main.py:147-160 | ValueError exactly when there are no classes. Otherwise the result is a class with the least summed distance, and every earlier class has a strictly larger sum. |
| Classification.VecAdd | main.py:114 | `avg_histogram += histogram` adds elementwise; Classification.SumVecAdd states its total. |
| Classification.SumVecAdd | main.py:114 | After `avg_histogram += histogram` the entries sum to the old sum plus the histogram's sum. |
| Classification.Scale | main.py:115 | `avg_histogram /= total_patch_count` divides every entry by the total; Classification.SumScale states its total. |
| Classification.SumScale | main.py:115 | After `avg_histogram /= total_patch_count` the entries sum to the old sum over the total. |
| Classification.AccumulateBatch | main.py:104-114 | The loop over one batch's images continues the running sums: afterwards the total is the patch count of all images so far, and the sum is their elementwise histogram total. |
| Classification.AccumulateClass | main.py:99-115 | `total_patch_count` is the sum of the per-image patch counts. `avg_histogram` is the elementwise sum of the per-image histograms divided by that total, or None when the total is 0. |
| Classification.ClassAverageMass | main.py:113-115 | With per-image histograms that each sum to 1, the profile sums to (number of images)/(number of patches) rather than 1. |
| Classification.ClassProfiles | main.py:97-116 | One profile per class, stored under the class name, in class order, each the class's average. |
| Classification.ValidationLoop | main.py:132-143 | With no classifier error, `correct` is the number of opened entries predicted right and `all_entries` the number of opened entries. `correct ≤ all_entries`. A classifier error ends the run with the first such error. Every running accuracy printed at main.py:224 lies in [0, 1], and the last is correct/all. |
| Classification.CountsAppend | main.py:134-143 | Both counters are additive over a split of the entries. |
| Classification.MissingChangesNothing | main.py:142-143 | An entry whose file is missing changes neither counter, wherever it stands. |
| Classification.Accuracy | main.py:144 | `correct / all_entries` raises ZeroDivisionError exactly when no entry opened. Otherwise it lies in [0, 1], and it is 1 when every opened entry was right. |
| Tools.SampleBuffer.Clear | tools.py:266 | `samples.clear()` empties the list. |
| Tools.SampleBuffer.Extend | tools.py:267-269 | `samples.extend(images)` appends the images after the current contents. |
| Tools.MaxBatches | tools.py:265 | The number of `zip_longest` tuples bounds every class's batch count, and is 0 for no classes. |
| Tools.MaxBatchesAttained | tools.py:265 | Some class has exactly that many batches. |
| Tools.BatchOrNothing | tools.py:268 | A class that has run out gives `None`, which the comprehension skips (no images); Tools.RoundEmpty and Tools.FillRound state what a round then holds. |
| Tools.RoundEmpty | tools.py:265-269 | A round is empty exactly when every class that has an i-th batch has it empty. |
| Tools.FillRound | tools.py:266-269 | After clear and extend, the buffer holds round i: the i-th batch of every class that has one, in class order. |
| Tools.InterleavedAccesses | tools.py:262-270 | The number of rounds is the maximum batch count, and round i holds the i-th batches in class order. The one buffer shared by all yields is freshly created and holds the last round at the end. The same applies to `feature_batches` at main.py:32-40. |
| Tools.SerialAccessed | tools.py:273-275 | The number of yields is the total number of batches. |
| Tools.SerialAccessedOrder | tools.py:273-275 | Class c's batch j is yielded at position (batches of the classes before c) + j. |
| Tools.SerialAccessedClassMajor | tools.py:273-275 | Concatenating the serial output gives all images in class-major order. |
| Tools.InterleavedSameImagesAsSerial | tools.py:262-275 | The images of all interleaved rounds are, as a multiset, exactly the images of the serial strategy and of all classes: nothing is lost and nothing is duplicated. |
| Tools.SubindexSize | tools.py:37-41 | The sizes are 330 for ARTIST, 280 for STYLE and 760 for GENRE; Tools.Unbiased states that each kept class holds exactly that many of its own paths. |
| Tools.Pick | tools.py:47 | The drawn paths in draw order: path k is the path at position k of the draw. |
| Tools.PickNoDuplicates | tools.py:47 | A draw of distinct positions from a list without duplicates has no duplicates. |
| Tools.SubsampleOne | tools.py:47 | `sample(paths, size)` gives exactly `size` paths of the class's own list, at the drawn distinct positions, and no duplicates when the list has none. |
| Tools.SubsampleClasses | tools.py:46-49 | A class is kept exactly when it has at least `size` paths. Each kept class has exactly `size` paths taken from the drawn positions of its own list. |
| Tools.Unbiased | tools.py:37-49 | Every target of the index is kept. A class stays exactly when it has at least the target's subindex size of paths. It then has exactly that many paths, all from its own list, and none repeated when its list has none. |
| Tools.ImageInfo.Area | tools.py:160-162 | The area is non-negative for non-negative sides. It is zero exactly when a side is zero, and at least each side when the other is at least 1. |

## Left out

- Random patch mode (utils.py:51-57) is left out: it calls scikit-learn's `extract_patches_2d` and truncates a float.
- `k_closest` (utils.py:84-91) wraps scikit-learn's neighbour search. Its results enter as plain index and distance sequences.
- `match.match1`, `match.match2`, `palette` and `loader.BatchLoader` are not part of this model. Their results are parameters: per-image (histogram, count) pairs, per-class distances and per-class batch sequences.
- Pickle, directory creation, `PIL.Image.open`, pandas CSV reads, the JSON write and `exit()` of `unbiased`, and the copying code after `exit()` are I/O. Opening an image is modelled only as "opened, or FileNotFoundError".
- Random sampling is not modelled. `val_entries.sample(frac=0.1)` is the caller's choice of entries, and `random.sample` is a parameter of distinct positions.
- Plotting, tqdm progress bars, the command line, configuration, HDF5 code, `compression_ratios`, `ClassInfo`/`TargetInfo` and `consume` are left out: they are I/O, display or iterator plumbing.
- Floating point is modelled as exact `real` arithmetic, not IEEE doubles.
- Numpy broadcasting is not modelled: vectors that are added or compared have equal lengths.
- Utils.ComputeStrides: requires coverage > 0. For coverage ≤ 0 the `while` at utils.py:64 never ends, since 1/n > 0 ≥ coverage for every n, so `get_patches` never returns.
- Utils.GetPatches: requires coverage > 0 for images of at least 16 × 16, for the same reason; the non-terminating case is not modelled.
- Utils.Histogram: requires `patches_num > 0`. With 0, numpy yields inf or nan instead of raising, and a real division cannot stand for that.
- Classification.AccumulateClass: a total patch count of 0 gives None. Numpy would give nan or inf without raising.
- Classification.Predict2: takes the `match2` results of the classes it iterates. A class missing from `neighbours` (a KeyError at main.py:155) is not modelled.
- Classification.ValidationLoop: the label lookup `class_encoding[entry["encoded_cls"]]` (main.py:138, main.py:220) is assumed to succeed. An unknown code would raise KeyError outside the `FileNotFoundError` handler and end the run; an opened entry carries its already decoded class.
- Classification.ValidationLoop: any classifier error (for example an empty profile dict) ends the run. The model does not distinguish exception kinds beyond passing the error on.
- Tools.InterleavedAccesses: is run to its end and returns the contents at each yield. Generator laziness is not modelled. Because every yield hands out the same list, a consumer that keeps an earlier yield sees it overwritten; the model states only the buffer's final contents.
- Tools.SubsampleOne: states membership, the drawn positions and no duplicates. It does not state the multiset sub-bag property (each path taken at most as often as it occurs).
- Tools.Unbiased: keys the result by Target values rather than by `target.name` strings; the two are in one-to-one correspondence.
- Utils.ComputeStrides: the search overshoots by one. The row stride is one more than the smallest n with 1/n ≤ coverage, because the loop increments after computing. This is modelled as written.
- The stride search as written and the histogram's length follow the code. A closed-form stride and a histogram per palette entry may be what the design had in mind; the second appears under Findings.

## Findings

| source | as written | input that shows it | evidently intended | confidence | as-written member | corrected member |
|---|---|---|---|---|---|---|
| utils.py:96-98 | `hist` has one slot per neighbour and `hist[neighbors] += 1` raises IndexError for any index at or beyond the number of patches. The returned `np.unique` counts drop palette entries that do not occur, so histograms of different images have different lengths and misaligned bins. | Neighbours [1, 1] give [1.0], not [0.0, 1.0] (palette of 2). Neighbours [1] with one patch raise IndexError. | A histogram with one slot per palette entry, holding each entry's count over `patches_num`. It sums to 1 when `patches_num` is the number of patches. | high (not executed) | Utils.HistogramDropsEmptyBinExample, Utils.HistogramIndexErrorExample | Utils.BinHistogram, Utils.BinHistogramSum |
