# Skeleton representation learning: preprocessing, embedding and clustering logic in Dafny

This project models the parts of a repository that learns representations of
cortical-fold skeletons (3-D voxel volumes) with a beta-VAE and with SimCLR
contrastive learning, then clusters and plots the learned embeddings. The
parts modelled are those with statable logic:

- **Skeleton preprocessing** (`betaVAE/preprocess.py`):
  - `NormalizeSkeleton` relabels voxels in place. It has two modes:
    - binary mode clips positive labels to 1;
    - multi-class mode merges the sulcal labels 30/40/60/70/80 into 1/2/3.
  - `Padding` centres a volume inside a target shape with numpy's constant-mode
    `np.pad`, either directly or per channel.
- **Embedding extraction and t-SNE plotting** (`SimCLR/utils/plots/visualize_tsne.py`):
  - two augmented views per skeleton are encoded and interleaved into the embedding matrix;
  - plot colours, the marker paths of `mscatter`, and where the figure goes.
- **Validation and clustering** (`SimCLR/evaluation/validate_and_clusterize.py`):
  - selection of the first view of each pair;
  - the Affinity Propagation coarsening loop. The estimator is a parameter (an oracle).
  - assembly of the result record.
- **Cross-run aggregation** (`SimCLR/evaluation/plot_loss_silhouette_score_vs_latent_dimension.py`):
  - run directories are read in sorted path order into three aligned series;
  - `main` swallows only a zero exit code.

Modules (one file each):

| module | contents |
|---|---|
| `Wrappers` | `Option`, `Result` |
| `NdArray` | numpy arrays as nested values (`Leaf` or `Node` of sub-arrays along axis 0), shapes, element access, constant-mode padding |
| `Preprocess` | `NormalizeSkeleton` (a class over `array<int>`), `Padding` |
| `VisualizeTsne` | embeddings, colours, markers, output target |
| `PyDict` | JSON values and insertion-ordered Python dicts with `update` |
| `ValidateAndClusterize` | first-view selection, coarsening loop as written and corrected, result record |
| `StringOrder` | Python string ordering and `sorted()` |
| `LossSilhouettePlot` | the aggregation loop and `main` |

Three behaviours of the code worth knowing:

- **Odd row count.** With an odd number of embedding rows, the first-view selection floors, and the filename list keeps one more entry than the embedding list.
- **Missing result file.** The aggregation aborts on a missing or malformed `result.json`; it does not skip the run.
- **Persistence.** Results are written by plain overwrites, not atomic writes. Persistence is not modelled.

## Model

| member | source | states |
|---|---|---|
| Preprocess.NormalizedVoxel | betaVAE/preprocess.py:62-69 | one voxel after `__call__`: binary mode leaves no value above 1 and keeps values up to 1; multi-class mode changes exactly the labels 30, 40, 60, 70, 80, each to 1, 2 or 3 |
| Preprocess.MultiClassSteps | betaVAE/preprocess.py:64-69 | the five masked assignments in source order change exactly the labels 30, 40, 60, 70, 80, each to 1, 2 or 3 |
| Preprocess.MultiClassStepsNet | betaVAE/preprocess.py:64-69 | the five in-place steps map 30→1, 40→1 (through 30), 60→2, 70→3 (through 80), 80→3 and leave every other label unchanged |
| Preprocess.NormalizedVoxelIdempotent | betaVAE/preprocess.py:62-69 | normalising a voxel twice equals normalising it once, in both modes |
| Preprocess.Normalized | betaVAE/preprocess.py:61-70 | normalisation is element-wise and keeps the length |
| Preprocess.NormalizedIdempotent | betaVAE/preprocess.py:61-70 | `NormalizeSkeleton` is idempotent on whole arrays |
| Preprocess.BinaryModeClips | betaVAE/preprocess.py:62-63 | with two classes, positive voxels become 1, the others are unchanged, so no voxel exceeds 1 |
| Preprocess.NormalizeSkeleton.constructor | betaVAE/preprocess.py:57-59 | the instance keeps its class count |
| Preprocess.NormalizeSkeleton.ClipPositive | betaVAE/preprocess.py:63 | the masked assignment `arr[arr > 0] = 1` in place |
| Preprocess.NormalizeSkeleton.ReplaceAll | betaVAE/preprocess.py:65-69 | one masked assignment `arr[arr == from] = to` in place |
| Preprocess.NormalizeSkeleton.Apply | betaVAE/preprocess.py:61-70 | updates the array in place to its normalised contents and returns the same array |
| Preprocess.MakePadding | betaVAE/preprocess.py:76-94 | a scalar fill is replicated once per channel when there are several channels; with assertions enabled a list fill raises, because `nb_channels` is called as a function |
| Preprocess.SplitDifference | betaVAE/preprocess.py:122-128 | before + after = target − original, after − before ∈ {0, 1}, before = floor half of the difference, both non-negative when the array fits |
| Preprocess.SplitDifferenceUnique | betaVAE/preprocess.py:122-128 | the split is the only pair with that sum and that difference |
| Preprocess.Widths | betaVAE/preprocess.py:120-131 | one pad pair per array axis: split differences on the constrained axes, (0, 0) on the trailing ones |
| Preprocess.ConstantFill | betaVAE/preprocess.py:132-133 | a fill broadcasts to numpy's (ndim, 2) constant table exactly when it is a scalar or a list of one or two values |
| Preprocess.NpPad | betaVAE/preprocess.py:132-133 | `np.pad` in constant mode succeeds iff the padding list is non-empty, every width is non-negative and the fill broadcasts; otherwise the error of the first failing check in that order; on success the padded shape |
| Preprocess.PadSpec | betaVAE/preprocess.py:117-134 | `_apply_padding` succeeds iff the array has an axis, fits the target and the fill broadcasts; otherwise the error `np.pad` raises first; on success the shape is the target on constrained axes and unchanged elsewhere |
| Preprocess.WidthsFit | betaVAE/preprocess.py:120-131 | when the array fits, all widths are non-negative and padding yields the resized shape |
| Preprocess.PadSpecConstant | betaVAE/preprocess.py:120-134 | with a fill np.pad can broadcast (a scalar, or one or two equal values) and an array that fits, `_apply_padding` succeeds with constant padding by the non-negative split widths and the broadcast value |
| Preprocess.InOriginalInside | betaVAE/preprocess.py:120-131 | a cell lies in the original region by the `before` offsets iff it lies inside the padding widths, and the two ways of shifting it back agree |
| Preprocess.PadSpecCentres | betaVAE/preprocess.py:120-134 | for any fill np.pad can broadcast, including the `[v, v]` of two channels on the same-rank path: the original content sits at offset `before` on every axis, every other cell holds the broadcast value, and every cell is readable |
| Preprocess.ApplyPadding | betaVAE/preprocess.py:117-134 | the width-building loops compute exactly the padding specified by `PadSpec` |
| Preprocess.CallSpec | betaVAE/preprocess.py:96-115 | rank difference other than 0/1 is a ValueError; same rank pads directly; one extra axis pads channel by channel with the per-channel fill, truncated to the shorter of channels and fill values; a scalar fill there is not iterable |
| Preprocess.CallChannelsFit | betaVAE/preprocess.py:107-111 | when every channel fits, the channel path succeeds with shape [min(channels, nb_channels)] + target; the result is the empty array exactly when there are no channels |
| Preprocess.Call | betaVAE/preprocess.py:96-115 | the channel loop produces exactly `CallSpec` |
| NdArray.Full | betaVAE/preprocess.py:132-133 | a constant array has the requested shape |
| NdArray.FullAt | betaVAE/preprocess.py:132-133 | every cell of a constant array holds the fill |
| NdArray.PaddedShape | betaVAE/preprocess.py:132-133 | each padded axis grows by its two widths |
| NdArray.Pad | betaVAE/preprocess.py:132-133 | constant-mode padding yields the padded shape |
| NdArray.PadAt | betaVAE/preprocess.py:132-133 | a padded cell inside the original region holds the original cell shifted back by `before`; any other cell holds the fill |
| NdArray.PadAtInside | betaVAE/preprocess.py:132-133 | a padded cell in the original region holds the original cell at the index shifted back by `before` |
| NdArray.PadAtOutside | betaVAE/preprocess.py:132-133 | a padded cell outside the original region, in any axis, holds the fill value |
| NdArray.AtInBounds | betaVAE/preprocess.py:120-133 | every in-bounds index of an array of a given shape is readable; used to show every cell of the padded result is readable |
| VisualizeTsne.Interleave | SimCLR/utils/plots/visualize_tsne.py:44-49 | a batch gives 2·size rows; sample k's first view is row 2k and its second view row 2k+1 |
| VisualizeTsne.Embeddings | SimCLR/utils/plots/visualize_tsne.py:37-52 | the accumulated matrix has two rows per sample |
| VisualizeTsne.EmbeddingsAppend | SimCLR/utils/plots/visualize_tsne.py:50 | one more batch appends its interleaved rows |
| VisualizeTsne.EmbeddingsPrefix | SimCLR/utils/plots/visualize_tsne.py:40-50 | the rows of the first n batches form a prefix of the whole matrix |
| VisualizeTsne.EmbeddingsRows | SimCLR/utils/plots/visualize_tsne.py:40-50 | sample k of batch b sits at rows 2·(samples before b)+2k and +1 |
| VisualizeTsne.InterleaveConcat | SimCLR/utils/plots/visualize_tsne.py:48-49 | interleaving distributes over concatenation of batches |
| VisualizeTsne.EmbeddingsFlatten | SimCLR/utils/plots/visualize_tsne.py:37-52 | batching does not matter: the matrix is the interleave of all samples in loader order |
| VisualizeTsne.ComputeEmbeddingsSkeletons | SimCLR/utils/plots/visualize_tsne.py:37-52 | the loop returns `Embeddings` of the loader when there is no batch or the network width is positive and equals `num_outputs`; with a batch, a zero width fails at `view(-1, 0)` and any other width mismatch at the concatenation |
| VisualizeTsne.TileBlueRed | SimCLR/utils/plots/visualize_tsne.py:76 | alternating "b", "r", repeated the given number of times |
| VisualizeTsne.PointColours | SimCLR/utils/plots/visualize_tsne.py:73-78 | without labels, alternating blue/red over 2·⌊n/2⌋ points (one short for odd n); with labels, the labels themselves |
| VisualizeTsne.MarkerObject | SimCLR/utils/plots/visualize_tsne.py:26-29 | a marker that is already a MarkerStyle is used as it is; a marker code is turned into one |
| VisualizeTsne.MScatter | SimCLR/utils/plots/visualize_tsne.py:19-34 | marker paths are set iff markers are given one per point; path i comes from marker i, converted to a style when it is not one |
| VisualizeTsne.OutputTarget | SimCLR/utils/plots/visualize_tsne.py:82-89 | buffer wins; otherwise a non-empty save path saves to `<savepath>/tsne_<type>.png`; otherwise the figure is shown |
| VisualizeTsne.PointColoursRefused | SimCLR/utils/plots/visualize_tsne.py:73-78 | under the length check of the scatter's colour parsing, `plot_tsne`'s colours are refused without labels exactly for an odd number of points from three on, and with labels exactly when their count is not 0, 1 or the number of points |
| VisualizeTsne.PlotTsne | SimCLR/utils/plots/visualize_tsne.py:62-89 | raises the scatter's ValueError iff the colour count is not 0, 1 or the number of points; otherwise colours by `PointColours`, an "o" marker path for every point, output by `OutputTarget` |
| PyDict.Keys | SimCLR/evaluation/validate_and_clusterize.py:153-156 | the keys of a dict, in insertion order |
| PyDict.IndexOf | SimCLR/evaluation/validate_and_clusterize.py:153-156 | position of the first occurrence of a key, −1 iff absent |
| PyDict.Get | SimCLR/evaluation/validate_and_clusterize.py:153-156 | a lookup finds a value iff the key is present |
| PyDict.GetAt | SimCLR/evaluation/validate_and_clusterize.py:153-156 | in a dict with unique keys, looking up entry i's key yields entry i's value |
| PyDict.Set | SimCLR/evaluation/validate_and_clusterize.py:153-156 | assignment keeps keys unique, binds the key, leaves other keys alone, keeps an existing key's position and appends a new one |
| PyDict.UpdateAll | SimCLR/evaluation/validate_and_clusterize.py:153-156 | `dict.update` sets the other dict's items one after another, keeping keys unique |
| PyDict.UpdateAllGet | SimCLR/evaluation/validate_and_clusterize.py:153-156 | after `update`, a key of the other dict maps to its value there, every other key keeps its old value |
| PyDict.UpdateAllKeepsKeys | SimCLR/evaluation/validate_and_clusterize.py:153-156 | `update` keeps the existing keys in order at the front |
| PyDict.ResultDict.constructor | SimCLR/evaluation/validate_and_clusterize.py:86 | the record starts as the validation metrics |
| PyDict.ResultDict.Update | SimCLR/evaluation/validate_and_clusterize.py:153-156 | the in-place `update` loop leaves the record equal to `UpdateAll` of the old record |
| ValidateAndClusterize.FirstViews | SimCLR/evaluation/validate_and_clusterize.py:91-93 | ⌊n/2⌋ rows, row k being embedding row 2k |
| ValidateAndClusterize.EveryOther | SimCLR/evaluation/validate_and_clusterize.py:94 | `filenames[::2]`: ⌈n/2⌉ entries, entry k being entry 2k |
| ValidateAndClusterize.SelectionAlignment | SimCLR/evaluation/validate_and_clusterize.py:91-94 | the two selections have equal length iff the row count is even, one more filename otherwise, and are aligned index by index |
| ValidateAndClusterize.FirstViewsOfEmbeddings | SimCLR/evaluation/validate_and_clusterize.py:91-93 | applied to the embedding matrix, the selection yields exactly the first view of every sample in loader order |
| ValidateAndClusterize.IncreasingBelowLength | SimCLR/evaluation/validate_and_clusterize.py:136-139 | an ascending list of exemplar positions below n has at most n entries |
| ValidateAndClusterize.Select | SimCLR/evaluation/validate_and_clusterize.py:139 | fancy indexing `embeddings[idx]` picks row idx[j] as row j |
| ValidateAndClusterize.AsWrittenRows | SimCLR/evaluation/validate_and_clusterize.py:134-142 | the rows given to each fit of the loop as written are never more than the whole matrix |
| ValidateAndClusterize.CoarsenAsWritten | SimCLR/evaluation/validate_and_clusterize.py:134-147 | the loop as written: labels unbound iff the first fit has at most five exemplars; otherwise it ends at the first refit with at most five exemplars, with the predicted labels of that refit, or runs out of fuel iff no refit within the fuel gets there |
| ValidateAndClusterize.FullIncreasingIsIdentity | SimCLR/evaluation/validate_and_clusterize.py:138-142 | n ascending positions below n are 0..n−1 |
| ValidateAndClusterize.StallRepeats | SimCLR/evaluation/validate_and_clusterize.py:139 | positions picked by a refit, mapped back through the subset it was given, are that whole subset when the refit keeps as many exemplars as it was given |
| ValidateAndClusterize.CorrectedStallRepeats | SimCLR/evaluation/validate_and_clusterize.py:138-142 | in the corrected loop without its stall check, a refit that does not shrink the exemplars keeps exactly the same rows, and so does the refit after it: that loop would repeat for ever |
| ValidateAndClusterize.Exemplars | SimCLR/evaluation/validate_and_clusterize.py:134-142 | exemplars of the corrected loop after k fits, as rows of the whole matrix: ascending, in range, and all among the first fit's exemplars |
| ValidateAndClusterize.ExemplarsStep | SimCLR/evaluation/validate_and_clusterize.py:139-141 | one corrected refit fits the rows at the current exemplars and maps its positions back through them |
| ValidateAndClusterize.ShrinkingBound | SimCLR/evaluation/validate_and_clusterize.py:138-142 | each shrinking refit removes at least one exemplar, so the corrected loop refits at most as often as the first fit has exemplars |
| ValidateAndClusterize.NoStallBeforeEnd | SimCLR/evaluation/validate_and_clusterize.py:138-142 | a run that ends with at most five exemplars has stalled at no step |
| ValidateAndClusterize.CoarsenStep | SimCLR/evaluation/validate_and_clusterize.py:138-142 | at a fit with more than five exemplars, a refit that does not shrink them is a stall there, and one that shrinks them extends the run of shrinking refits |
| ValidateAndClusterize.Coarsen | SimCLR/evaluation/validate_and_clusterize.py:134-147 | corrected loop: terminates; fails, always with a stall, iff some refit reached with more than five exemplars does not shrink them; on success after `refits` shrinking refits the exemplars are `Exemplars` at that step (at most five, ascending, among the first fit's), the labels are `predict` of the last refit on the whole matrix, or the first fit's labels and exemplars when no refit was needed |
| ValidateAndClusterize.AllExemplarsWellBehaved | SimCLR/evaluation/validate_and_clusterize.py:134-136 | an estimator that makes every row its own exemplar meets the estimator contract |
| ValidateAndClusterize.AsWrittenNeverStops | SimCLR/evaluation/validate_and_clusterize.py:138-142 | with that estimator and more than five rows, every refit of the loop as written sees all rows and keeps more than five exemplars |
| ValidateAndClusterize.FewRowsLeaveLabelUnbound | SimCLR/evaluation/validate_and_clusterize.py:135-147 | with that estimator on three rows, the first fit has three exemplars, so the loop body never runs |
| ValidateAndClusterize.ShiftedCentersAscending | SimCLR/evaluation/validate_and_clusterize.py:136 | the second sample estimator's exemplars are ascending positions within the fitted rows |
| ValidateAndClusterize.ShiftedExemplarsWellBehaved | SimCLR/evaluation/validate_and_clusterize.py:134-136 | the second sample estimator meets the estimator contract |
| ValidateAndClusterize.ShiftedRefitRows | SimCLR/evaluation/validate_and_clusterize.py:139 | each refit of the loop as written takes the whole matrix at the previous fit's positions |
| ValidateAndClusterize.ShiftedCentersOnSamples | SimCLR/evaluation/validate_and_clusterize.py:139 | the sample estimator's exemplars on ten rows and on the six rows it picks |
| ValidateAndClusterize.ShiftedFirstRefit | SimCLR/evaluation/validate_and_clusterize.py:139 | on rows 0..9 the first refit fits rows 1..6 |
| ValidateAndClusterize.ShiftedSecondRefit | SimCLR/evaluation/validate_and_clusterize.py:139 | the second refit fits rows 0..5 of the whole matrix |
| ValidateAndClusterize.AsWrittenRefitsWrongRows | SimCLR/evaluation/validate_and_clusterize.py:139 | the second refit includes row 0, which was never an exemplar, whereas composing positions would refit rows 1..6 |
| ValidateAndClusterize.CorrectedFirstFit | SimCLR/evaluation/validate_and_clusterize.py:134-136 | on the ten sample rows the corrected loop starts with exemplars at rows 1..6 |
| ValidateAndClusterize.CorrectedFirstRefit | SimCLR/evaluation/validate_and_clusterize.py:139 | the corrected refit maps positions 0..5 back to rows 1..6 |
| ValidateAndClusterize.CorrectedRefitsRightRows | SimCLR/evaluation/validate_and_clusterize.py:138-142 | on that input the corrected loop stalls at its first refit instead of refitting row 0 |
| ValidateAndClusterize.Assembled | SimCLR/evaluation/validate_and_clusterize.py:152-156 | the record after both updates is a dict with unique keys that holds latent_space_size and temperature |
| ValidateAndClusterize.AssembledConfig | SimCLR/evaluation/validate_and_clusterize.py:152-156 | the record maps latent_space_size and temperature to the configuration's values, whatever the metrics or silhouette dicts held |
| ValidateAndClusterize.AssembledOthers | SimCLR/evaluation/validate_and_clusterize.py:153-154 | any other key holds its silhouette value when the silhouette dict has it and its validation metric otherwise |
| ValidateAndClusterize.AssembledKeepsMetrics | SimCLR/evaluation/validate_and_clusterize.py:152-156 | every validation metric key stays in the record, in its original order and at the front |
| ValidateAndClusterize.AssembleResult | SimCLR/evaluation/validate_and_clusterize.py:86-156 | a fresh record holding the metrics updated by the silhouette entries, then by latent size and temperature |
| StringOrder.Below | SimCLR/evaluation/plot_loss_silhouette_score_vs_latent_dimension.py:44 | Python `str <`: a proper prefix sorts before every extension, and a string never sorts below one of its prefixes |
| StringOrder.BelowAtFirstDifference | SimCLR/evaluation/plot_loss_silhouette_score_vs_latent_dimension.py:44 | two strings compare as their characters at the first position where they differ, by code point |
| StringOrder.BelowIrreflexive | SimCLR/evaluation/plot_loss_silhouette_score_vs_latent_dimension.py:44 | no path sorts before itself |
| StringOrder.BelowTransitive | SimCLR/evaluation/plot_loss_silhouette_score_vs_latent_dimension.py:44 | string order is transitive |
| StringOrder.BelowTotal | SimCLR/evaluation/plot_loss_silhouette_score_vs_latent_dimension.py:44 | two different paths are ordered exactly one way |
| StringOrder.Insert | SimCLR/evaluation/plot_loss_silhouette_score_vs_latent_dimension.py:44 | inserting into an ascending list keeps it ascending and adds exactly that element |
| StringOrder.Sorted | SimCLR/evaluation/plot_loss_silhouette_score_vs_latent_dimension.py:44 | `sorted()` returns an ascending permutation |
| StringOrder.AscendingPermutationUnique | SimCLR/evaluation/plot_loss_silhouette_score_vs_latent_dimension.py:44 | the ascending permutation is unique, so the visiting order does not depend on the listing order |
| StringOrder.SixteenBeforeEight | SimCLR/evaluation/plot_loss_silhouette_score_vs_latent_dimension.py:44 | "runs/16" sorts before "runs/8" |
| LossSilhouettePlot.Entry | SimCLR/evaluation/plot_loss_silhouette_score_vs_latent_dimension.py:49-56 | a failed read reports the directory it was reading |
| LossSilhouettePlot.EntryReads | SimCLR/evaluation/plot_loss_silhouette_score_vs_latent_dimension.py:49-56 | a run reads iff its record is an object with the three keys and a non-empty AffinityPropagation object; the silhouette is that object's first value |
| LossSilhouettePlot.Gather | SimCLR/evaluation/plot_loss_silhouette_score_vs_latent_dimension.py:45-56 | a successful scan has three lists of one entry per directory |
| LossSilhouettePlot.Reads | SimCLR/evaluation/plot_loss_silhouette_score_vs_latent_dimension.py:48-56 | one read per directory, in order |
| LossSilhouettePlot.GatherOkIff | SimCLR/evaluation/plot_loss_silhouette_score_vs_latent_dimension.py:48-56 | a scan succeeds iff every read does |
| LossSilhouettePlot.GatherAligned | SimCLR/evaluation/plot_loss_silhouette_score_vs_latent_dimension.py:48-56 | entry i of each list is read i's value |
| LossSilhouettePlot.GatherFirstError | SimCLR/evaluation/plot_loss_silhouette_score_vs_latent_dimension.py:48-56 | a failed scan reports the first failing read, every earlier read succeeded |
| LossSilhouettePlot.GatherErrorSticks | SimCLR/evaluation/plot_loss_silhouette_score_vs_latent_dimension.py:48-56 | once a prefix fails, the whole scan fails with that error |
| LossSilhouettePlot.GatherOkStep | SimCLR/evaluation/plot_loss_silhouette_score_vs_latent_dimension.py:48-56 | one more successful read appends its point to a successful scan |
| LossSilhouettePlot.Collected | SimCLR/evaluation/plot_loss_silhouette_score_vs_latent_dimension.py:44-56 | reading the directories gives three lists of one entry per directory, or an error naming one of them |
| LossSilhouettePlot.CollectedOkIff | SimCLR/evaluation/plot_loss_silhouette_score_vs_latent_dimension.py:48-56 | the scan succeeds iff every directory reads; nothing is skipped |
| LossSilhouettePlot.CollectedAligned | SimCLR/evaluation/plot_loss_silhouette_score_vs_latent_dimension.py:45-56 | the three lists have equal length, one entry per directory, entry i from directory i |
| LossSilhouettePlot.CollectedFirstError | SimCLR/evaluation/plot_loss_silhouette_score_vs_latent_dimension.py:48-56 | a failed scan reports the first directory in sorted order that does not read |
| LossSilhouettePlot.CollectRuns | SimCLR/evaluation/plot_loss_silhouette_score_vs_latent_dimension.py:44-56 | the loop reads the sorted directories into `Collected` of them |
| LossSilhouettePlot.SampleReads | SimCLR/evaluation/plot_loss_silhouette_score_vs_latent_dimension.py:49-56 | the two sample runs read as their latent size, loss and first silhouette value |
| LossSilhouettePlot.GatherTwo | SimCLR/evaluation/plot_loss_silhouette_score_vs_latent_dimension.py:45-56 | two successful reads give two-entry lists in read order |
| LossSilhouettePlot.XValuesFollowPathOrder | SimCLR/evaluation/plot_loss_silhouette_score_vs_latent_dimension.py:44-61 | runs of latent sizes 8 and 16 are plotted with x-values [16, 8] |
| LossSilhouettePlot.Body | SimCLR/evaluation/plot_loss_silhouette_score_vs_latent_dimension.py:98-101 | an argparse exit propagates with its code; otherwise the body returns iff the scan succeeds |
| LossSilhouettePlot.MainOutcome | SimCLR/evaluation/plot_loss_silhouette_score_vs_latent_dimension.py:98-104 | `main` returns iff the body returned or raised SystemExit with code 0; otherwise it raises what the body raised |
| LossSilhouettePlot.MainOutcomes | SimCLR/evaluation/plot_loss_silhouette_score_vs_latent_dimension.py:98-104 | `--help` ends normally, SystemExit(None) is re-raised, and a listed run without a result makes `main` raise the scan error |

## Left out

- I/O is modelled as parameters:
  - the encoder network is a function;
  - the loader is a list of batches;
  - the glob listing is a list of paths;
  - the result files are a map from run directory to parsed JSON, where no entry means the file cannot be opened or parsed.
- GPU transfers, `torch.no_grad`, logging and `print` calls do nothing to the modelled values and are left out.
- Numerics in foreign code are left out:
  - TSNE, KMeans, DBSCAN, `Cluster.plot_silhouette`, and the internals of Affinity Propagation;
  - the silhouette entries are an input dict;
  - the Affinity Propagation estimator is an oracle. Its assumed properties are: exemplar indices are ascending positions within the fitted rows; `labels_` has one label per fitted row; `predict` returns one label per row it is given. Because `fit` is a function, the estimator is also deterministic: the same rows always give the same fit. `CorrectedStallRepeats`'s reading, that the corrected loop without its stall check would repeat for ever after a non-shrinking refit, relies on this. It concerns the corrected loop only; the loop as written refits other rows.
- Rendering is left out: matplotlib figures, the twin-axis plot of the aggregation script, `buffer_to_image`, and the marker path geometry (`get_path().transformed(...)` is a parameter).
- Persistence (`json.dump`, `torch.save`) is left out: plain file overwrites with no statable behaviour.
- Voxel values and fill values are integers. Floating-point fills and numpy dtype promotion are not modelled.
- `np.asarray` over the list of padded channels is modelled as the array whose axis-0 items are those channels.
- VisualizeTsne.ScatterAccepts: of matplotlib's colour parsing only the length check is modelled (0, 1 or one colour per point). Whether a label value is a valid colour or colour-map value is not modelled. So two cases differ from matplotlib: three or four numeric labels in [0, 1] on another number of points are taken there as one RGB(A) colour, and a single numeric label on more than one point is refused there. The callers in this repository always pass one label per point, so neither case arises.
- Preprocess.CallSpec / CallChannelsFit: with no channels, `np.asarray([])` gives a 1-D empty array of shape (0,), not (0, *target). The model's empty array `Node([])` has shape [0] and also every shape [0] + t, so the shape claim [min(channels, nb_channels)] + target says nothing more than "empty" in that case. `CallChannelsFit` states separately that the result is `Node([])` exactly when there are no channels.
- VisualizeTsne.Embeddings: the encoder is assumed to map each view independently of the rest of its batch. `compute_embeddings_skeletons` does not call `model.eval()`, so in training mode batch-dependent layers (batch normalisation, dropout) would break `EmbeddingsFlatten`'s claim that batching does not matter.
- VisualizeTsne.Interleave: every sample (`ViewPair`) is assumed to have exactly two views. With one view, `inputs[:, 1, :]` raises IndexError; views after the second are ignored.
- Preprocess.PadSpec: `np.pad` is modelled only in constant mode, with integral widths, as `_apply_padding` calls it.
- Preprocess.MakePadding: with assertions enabled, a list fill is an error (the `nb_channels()` call sits inside the `assert`), so per-channel fills come only from broadcasting one scalar, and the model never sees different values on different channels. Under `python -O` the assert is stripped and a list fill is kept as given; that case is not modelled.
- ValidateAndClusterize.CoarsenAsWritten: `fuel` bounds the number of refits, because the loop as written need not terminate. Running out of fuel stands for a loop that does not stop.
- ValidateAndClusterize.Coarsen: labels after a refit come from `predict` on the whole matrix, as in the code. Affinity Propagation's non-convergence label −1 is not distinguished.
- PyDict.Get: looks up the first occurrence of a key. Python dicts, including those built by `json.load`, never hold a key twice.
- LossSilhouettePlot.MainOutcome: `SystemExit` codes are modelled as None, an integer or a string. Other objects are not modelled. `False`, `0.0`, `0j` or any other value equal to 0 is not a separate case: `exc.code != 0` swallows it exactly as it swallows 0, which the model's `IntCode(0)` stands for.
- LossSilhouettePlot.Entry: a record that is not a JSON object fails at the first key lookup. Python raises TypeError there.

## Findings

| source | as written | input that shows it | evidently intended | confidence | as-written member | corrected member |
|---|---|---|---|---|---|---|
| SimCLR/evaluation/validate_and_clusterize.py:135-147 | `x_cluster_label` is assigned only inside the `while` loop, yet it is read at line 147 | an estimator that makes each of three rows its own exemplar: the first fit has three exemplars and the loop body never runs, so the read raises UnboundLocalError | when no coarsening is needed, use the first fit's labels (`cluster_labels_ini`) | not executed | ValidateAndClusterize.FewRowsLeaveLabelUnbound | ValidateAndClusterize.Coarsen |
| SimCLR/evaluation/validate_and_clusterize.py:139 | `embeddings[af.cluster_centers_indices_]` uses positions from the previous subset as rows of the whole matrix | ten rows 0..9, with an estimator that picks rows 1..6 of ten and all six positions of rows 1..6: the second refit fits rows 0..5 | map positions back through the previous subset before each refit, which refits rows 1..6 here | not executed | ValidateAndClusterize.AsWrittenRefitsWrongRows | ValidateAndClusterize.Coarsen |
| SimCLR/evaluation/validate_and_clusterize.py:138-142 | the loop stops only once at most five exemplars remain, with no check that a refit makes progress | an estimator that makes every row its own exemplar, on six or more rows: every refit keeps all rows | stop, or report, when a refit does not shrink the exemplar set | not executed | ValidateAndClusterize.AsWrittenNeverStops | ValidateAndClusterize.Coarsen |
