# Alignment analysis of a prototype network, modelled in Dafny

This project models the decision logic of `run_analysis` in
`ppnet/alignment_analysis.py`. That function analyses one test image against
a trained prototype network (ProtoPNet). It:

- reads the image's class and file name, and the checkpoint's architecture,
  experiment run, file name and epoch, from the two paths;
- builds the output directory `out/arch/run/model_name/alignment/class/image`;
- checks that every prototype's strongest last-layer connection is its own
  class, and logs one of two messages;
- ranks the N most activated prototypes;
- for each of the top-k classes by logit, ranks that class's prototypes, with
  a rank counter that restarts at 1 for each class;
- judges the prediction (arg-max of the logits) against the image's label.

The network's outputs are inputs of the model: logits, similarities,
last-layer weights, the identity matrix and the recorded prototype classes.
Activations and logits are integers, because only their order matters here.

Modules:

- `Outcomes`: `Option` and `Result`.
- `Paths`: the regular-expression split on `/` or `\`, the two path parsers,
  and POSIX `os.path.join`.
- `Epochs`: the first digit run of the checkpoint name, read in base 10.
- `Alignment`: `max_dist`, arg-max, the per-prototype strongest connection,
  the alignment message and the verdict.
- `Ranking`: the ascending index sort, top-N selection, the global top-N
  loop and the per-class loops.
- `Analysis`: one run, step by step, with each failure reported in the order
  the source meets it.

The code calls `torch.sort` and `torch.topk`, which promise no order
among equal values. The model's sort is one fixed, stable insertion sort,
so its rankings break ties in one particular way: among equal
activations or logits, the larger index ranks first
(`Ranking.TopIndicesTieOrder`). The contracts that equate a ranking with
`Ranking.TopIndices` are therefore exact only when the keys are distinct.
The properties that hold whatever the tie order are stated separately:
distinct indices, non-increasing keys, and no unselected index with a
larger key.

## Model

| member | source | states |
|---|---|---|
| Paths.SplitFacts | ppnet/alignment_analysis.py:21 | segments never contain `/` or `\`; there is one more segment than separators; the path is one segment exactly when it has no separator |
| Paths.RejoinSplit | ppnet/alignment_analysis.py:21 | putting the separators back between the segments gives the original path (the split loses nothing) |
| Paths.SplitRejoin | ppnet/alignment_analysis.py:21 | splitting separator-free segments joined by separators gives back exactly those segments and separators |
| Paths.SplitAround | ppnet/alignment_analysis.py:21 | splitting at a separator splits each side independently |
| Paths.ParseImagePath | ppnet/alignment_analysis.py:20-21 | succeeds exactly when the path has a separator, and fails as a two-value unpacking of a one-element list otherwise; class and image name hold no separator |
| Paths.ParseImagePathOfRejoin | ppnet/alignment_analysis.py:21 | whatever precedes them, the last two components are returned as (class, image name) |
| Paths.ParseModelPath | ppnet/alignment_analysis.py:23-24 | succeeds exactly when the path has at least three separators; otherwise it fails as a four-value unpacking of the shorter list, reporting how many segments there were |
| Paths.ParseModelPathOfRejoin | ppnet/alignment_analysis.py:24 | the last four components bind architecture, run and model name; the third-from-last is discarded whatever it is |
| Paths.JoinPathSplit | ppnet/alignment_analysis.py:27 | joining non-empty, separator-free parts onto a path that does not end in `/` adds exactly those parts as new trailing segments |
| Paths.OutputDirLayout | ppnet/alignment_analysis.py:27 | for a non-empty root not ending in `/`, the output directory is `out/arch/run/model_name/alignment/class/image`, in that order, one `/` between parts |
| Paths.OutputDirLayoutOpenRoot | ppnet/alignment_analysis.py:27 | for an empty root or one ending in `/` (such as `results/`), no `/` is added after the root: the output directory is the root followed by `arch/run/model_name/alignment/class/image` |
| Paths.OutputDirSplit | ppnet/alignment_analysis.py:27 | the output directory splits into the root's segments plus the six parts, and parsing it as an image path gives back the image's class and name |
| Epochs.DecimalRoundTrip | ppnet/alignment_analysis.py:25 | reading the decimal digits of n in base 10 gives n |
| Epochs.DigitRun | ppnet/alignment_analysis.py:25 | finds nothing exactly when the name has no digit; otherwise returns the leftmost maximal run of digits |
| Epochs.Epoch | ppnet/alignment_analysis.py:25 | fails exactly when the model name holds no digit, as a search that matched nothing |
| Epochs.EpochOfName | ppnet/alignment_analysis.py:25 | for a name made of a digit-free prefix, a digit run and a rest not starting with a digit, the epoch is that run's base-10 value, leading zeros allowed |
| Epochs.EpochOfDecimal | ppnet/alignment_analysis.py:25 | an epoch written in decimal into a name is read back unchanged |
| Epochs.ExampleCheckpointEpoch | ppnet/alignment_analysis.py:23-25 | the checkpoint name `10_18push0.7822.pth` gives epoch 10 |
| Alignment.MaxDist | ppnet/alignment_analysis.py:41-42 | the product of channels, height and width is zero exactly when one of them is, and otherwise is at least each of them |
| Alignment.ArgMax | ppnet/alignment_analysis.py:55 | returns an index of a largest entry, the first one among equals |
| Alignment.MaxConnection | ppnet/alignment_analysis.py:55-56 | for each prototype, the first class whose last-layer weight from that prototype is largest |
| Alignment.MatchCount | ppnet/alignment_analysis.py:57 | the count of agreeing positions is at most the length, and equals it exactly when the vectors are equal |
| Alignment.CheckAlignment | ppnet/alignment_analysis.py:57-60 | with as many prototypes as recorded classes, the all-connect message is produced exactly when every strongest connection equals the recorded class; the warning otherwise; never both |
| Alignment.Judge | ppnet/alignment_analysis.py:208-211 | the verdict is correct exactly when the label is in range and is the first class with the largest logit |
| Alignment.JudgeUniqueMaximum | ppnet/alignment_analysis.py:208-211 | when one logit is strictly largest, exactly the label of that class is judged correct |
| Ranking.InsertAscending | ppnet/alignment_analysis.py:96 | inserting an index into a key-ascending index list keeps it key-ascending |
| Ranking.SortIndices | ppnet/alignment_analysis.py:96 | the result is a permutation of the given indices, in non-decreasing key order |
| Ranking.ArgSort | ppnet/alignment_analysis.py:96 | the sort indices are a permutation of `0..n-1` and their keys never decrease |
| Ranking.PermutationOfRange | ppnet/alignment_analysis.py:96 | a permutation of `0..n-1` has length n, distinct entries in range, and holds every index below n |
| Ranking.TopIndices | ppnet/alignment_analysis.py:97-100 | rank k is the entry at position `-(k+1)` of the ascending sort, and all ranks are in range |
| Ranking.TopIndicesFacts | ppnet/alignment_analysis.py:97-100 | the top-n indices are distinct and in non-increasing key order; no unselected index has a larger key than a selected one; with n equal to the length, every index is selected |
| Ranking.ArgSortStable | ppnet/alignment_analysis.py:96 | the model's ascending sort keeps equal keys in increasing index order |
| Ranking.TopIndicesTieOrder | ppnet/alignment_analysis.py:97-100 | among equally keyed indices in a top-n list, the larger index ranks first (the tie order the model fixes) |
| Ranking.TopIndicesShifted | ppnet/alignment_analysis.py:80-82 | in exact integer arithmetic, adding the same offset to every key does not change any top-n selection |
| Ranking.MostActivated | ppnet/alignment_analysis.py:96-100 | completes exactly when N is at most the number of prototypes; for N of zero or below the range is empty and nothing is ranked; when N is too large it stops after writing every prototype's rank, at the out-of-range index; the ranks written are the top indices, distinct, non-increasing in activation and dominating every unselected prototype |
| Ranking.ClassMembers | ppnet/alignment_analysis.py:152 | the prototypes whose identity entry for the class is nonzero, each once, in increasing order |
| Ranking.ClassRankingOf | ppnet/alignment_analysis.py:152-160 | listing the class members in reversed ascending-activation order gives each member of the class exactly once, no other prototype, highest activation first, ranked 1, 2, … |
| Ranking.ClassPrototypes | ppnet/alignment_analysis.py:152-206 | the loop with its counter starting at 1 produces a class ranking as above |
| Ranking.ClassSections | ppnet/alignment_analysis.py:145-157 | fails first on `k` not below the number of classes, then, in topk, on a negative `k` or one above the number of logits; otherwise gives k sections ranked 1..k, for the top-k classes by logit in order, each holding that class's ranking |
| Analysis.Activations | ppnet/alignment_analysis.py:80-82 | each activation is its similarity, plus `max_dist` when the activation function is linear |
| Analysis.ClassRankingShifted | ppnet/alignment_analysis.py:80-82 | in exact integer arithmetic, a class ranking on activations shifted by a constant is also a class ranking on the raw similarities |
| Analysis.RankedShifted | ppnet/alignment_analysis.py:80-82 | in exact integer arithmetic, both rankings of a run computed on shifted activations are the rankings of the raw similarities |
| Analysis.Locate | ppnet/alignment_analysis.py:20-25 | fails on the image path first, then on the model path, then on a name with no digit; it succeeds exactly when all three parse, and the epoch is the name's epoch |
| Analysis.LocateLayout | ppnet/alignment_analysis.py:20-25 | for paths laid out as `…/class/image` and `…/arch/run/dir/name`, with the epoch written in the name, the run reads back exactly those components and that epoch |
| Analysis.Rankings | ppnet/alignment_analysis.py:96-157 | too many top prototypes stops the run before the class step; then the top-k assertion, then topk (a negative or too large `k`); on success both rankings hold on the raw similarities, with no top prototypes for a count of zero or below |
| Analysis.Analyze | ppnet/alignment_analysis.py:27-211 | an unknown image class stops the run, then the three ranking errors, in that order; on success the report holds the output directory, the label, the alignment message, the predicted class as the first class with the largest logit, the verdict `Alignment.Judge` gives for the label (correct exactly when prediction equals label), and both rankings |
| Analysis.RunAnalysis | ppnet/alignment_analysis.py:16-213 | a run fails at the first failing step, in source order, naming its error: the path or epoch error, the unknown class, the top-prototype index, the top-k assertion, topk; it completes exactly when every step succeeds, with a report as above |

## Left out

- Loading the checkpoint, moving it to the GPU, `DataParallel`, the forward pass and `push_forward` (lines 36-38, 76-77): framework calls. Their outputs are inputs of the model.
- `distance_2_similarity` and float arithmetic: similarities are integers given as inputs. The model keeps only the integer `max_dist` offset of the linear mode (lines 80-82).
- Ranking.TopIndicesShifted: the offset cannot change a ranking only in exact arithmetic. The source adds `max_dist` to float32 values, and rounding can make two distinct similarities equal after the addition. The sort may then order them differently from the raw similarities. `Analysis.Ranked` states the rankings on the raw similarities, so it holds only in this integer abstraction.
- Image preprocessing and loading, `ImageFolder` and `save_preprocessed_img` (lines 43-44, 63-74, 93): image I/O. The dataset's class-to-label map is an input.
- `os.path.abspath` (lines 20, 23) depends on the working directory, and it also normalises the path: it removes `.` and `..` segments, doubled separators and a trailing `/`. The model takes abspath's result as its input path and does not perform this normalisation. On a raw path such as `/d/Male/./1.jpg` the model would read class `.` where the source reads `Male`.
- The check that the prototype image folder exists, and loading `bb.npy` (lines 48-51): filesystem access. The recorded prototype classes (its last column) are an input, and this failure is not modelled.
- The "Prototypes are chosen from … classes" log line (line 52): logging only.
- Rendering and writing files: `save_prototype`, the bounding-box and self-activation helpers, `find_high_activation_crop`, `cv2.resize`, heatmaps, `plt.imsave`, `info.txt` and `makedir` (lines 28-29, 98-142, 150-151, 158-205). These are I/O and float image numerics outside this file. The model produces only the ranked indices that name those outputs.
- Logging, `tqdm` progress bars and the `CUDA_VISIBLE_DEVICES` assignment (lines 17, 29-34, 91-92, 147, 209-211): side effects. The logged values (epoch, components, predicted and correct class, message, verdict) are fields of the report.
- The batch loop over `logits.size(0)` (lines 85-90): the analysis forwards one image, so the model works on one logit vector.
- Partial output on failure: when a run stops at the out-of-range top prototype or at the top-k assertion, the source has already written the earlier directories. The model reports only the error, apart from `Ranking.MostActivated`, which also returns the ranks already written.
- Alignment.CheckAlignment: comparing vectors of different lengths (numpy broadcasting or an elementwise-comparison error) is not modelled. The two vectors must have equal length. In a run both have one entry per prototype.
- Ranking.TopIndices: fixes one tie order (the larger index first), which `torch.sort` and `torch.topk` do not promise. `Ranking.MostActivated`, `Ranking.ClassSections`, `Analysis.Rankings` and `Analysis.Ranked` equate ranks with `Ranking.TopIndices`. On equal activations or logits the source may list the tied indices in another order.
- `tqdm`, `cv2`, `plt` and the rendering helpers (`save_prototype`, `save_prototype_original_img_with_bbox`, `save_prototype_self_activation`, `find_high_activation_crop`, `imsave_with_bbox`) are not imported in `ppnet/alignment_analysis.py` (lines 1-14). As written, the file stops with a NameError at line 97 on every run that gets that far. The model assumes these names are supplied, so `Analysis.RunAnalysis` describes the run the code evidently intends.
- Epochs.Epoch: only the ASCII digits `0`-`9` are digits. Python's `\d` also matches other Unicode decimal digits.
- Paths.OutputDirSplit: the split of the output directory is stated only for a non-empty root not ending in `/`. For the other roots, `Paths.OutputDirLayoutOpenRoot` gives the directory's text.
- Paths.JoinPathSplit: `os.path.join` is modelled with POSIX rules. Windows drive letters and `\` joins are not modelled, although the split accepts `\` as a separator.
- Alignment.MaxDist: states only the arithmetic bounds of the product. That it bounds the distance between a prototype and a patch comes from the network, which is not part of this model.
