# GAN visualisation helpers, modelled in Dafny

This project models the visualisation helpers of a collection of GAN
implementations (`visual.py`):

- `save_gan(model, ep, **kwargs)` picks a way to sample images from the
  model's lower-cased class name. The choices are: 100 unconditional samples;
  10 samples per class label; an infogan code; occluded real images
  reconstructed by a context encoder; or images translated by the two
  generators of a cycle GAN. The images go to one of two renderers. A name it
  does not know, or a missing keyword image, raises `ValueError` before the
  model is called.
- `_save_gan` draws a 10x10 grid, column by column, optionally writing the
  row number over each cell. `_save_img2img_gan` draws a 10x20 grid of
  before/after pairs. Both save to `visual/<name>/<ep>.png`.
- The `ccgan` branch builds an occlusion mask of ones. It then zeroes one
  randomly placed square per image, in place.
- `cvt_gif(folders_or_gan)` turns the numbered snapshots of each folder into
  an animated GIF. It lists the folder, sorts by modification time and keeps
  the `.png` files whose base name reads as an integer. Each frame is shrunk
  to a tenth of its size. It deletes any old `generating.gif` and writes the
  new one.

Modules, one per file:

- `wrappers.dfy` (`Wrappers`): `Option`, `Result` and the three Python
  exceptions that can arise: `ValueError`, `IndexError` and
  `FileNotFoundError`.
- `text.dfy` (`Text`): the string functions the code relies on. These are
  `str.lower`, `os.path.basename`, `split(".")[0]`, `endswith`, `"{}".format`
  of an int, and whether `int()` accepts a string.
- `layout.dfy` (`Layout`): the two renderers. Each renderer is a method with
  the source's loops. It produces a trace of the subplots it draws: the
  position, the batch and index of the image, and the label. It also gives
  the path saved to.
- `occlusion.dfy` (`Occlusion`): the ccgan mask as an `array3<int>` that is
  filled and zeroed in place.
- `dispatch.dfy` (`Dispatch`): `save_gan`. The model is a datatype whose
  inference entry points are function-valued fields. The outcome records the
  inference calls that were made and the render call that ends the branch.
- `animation.dfy` (`Animation`): `cvt_gif`. The file system is given as data:
  a map from folder path to its listing of names with modification times, and
  the pixel size of each image file. The result is the sequence of files
  removed and GIFs written, plus the exception that stopped the run, if any.

Behaviour of `visual.py` worth noting:

- `cvt_gif` sorts all listed files by modification time and filters them
  afterwards. The frames therefore come in time order, not numeric order;
  among equal times they keep the listing order. A frame must end in `.png`,
  and only the part of its base name before the first `.` is read as an
  integer.
- The ccgan branch slices its keyword images to at most 100, and the
  cyclegan branch slices each of its two batches to at most 50. The pair
  renderer indexes images 0..99 on both sides in any case, so shorter
  batches end in `IndexError` when the model keeps the batch length
  (`Dispatch.RenderNeedsFullBatches`).
- The corner of a ccgan square is drawn from `[0, size - w)`. The square
  therefore never reaches the last row or the last column of the image
  (`Occlusion.SquareInBounds`).

## Model

| member | source | states |
|---|---|---|
| Text.Lower | visual.py:30 | `str.lower()`: same length; no upper-case letter is left; each upper-case ASCII letter maps to its lower-case letter; every other character is kept |
| Text.EndsWithMeans | visual.py:168 | `s.endswith(suffix)` holds exactly when `s` is some string followed by `suffix` |
| Text.Basename | visual.py:171 | `os.path.basename`: the result has no `/`, is a suffix of the path, and is preceded by a `/` when shorter than the path |
| Text.BeforeFirstDot | visual.py:171 | `split(".")[0]`: the result has no `.`, is a prefix of the name, and is followed by a `.` when shorter than the name |
| Text.FormatInt | visual.py:116 | `"{}".format(ep)` contains neither `.` nor `/` and is an integer literal |
| Text.ParseInt | visual.py:170-173 | `int(s)` succeeds exactly on the integer literals (optional sign, then digits) |
| Text.ParseFormat | visual.py:116 | reading back a formatted epoch gives the epoch: `ParseInt(FormatInt(n)) == Some(n)` |
| Layout.SnapshotPath | visual.py:114-116 | the saved file's base name is `<ep>.png`, and its part before the first `.` reads back as `ep` |
| Layout.GridCoverage | visual.py:105-109 | the 100 steps of `_save_gan` draw images 0..99 once each; image `i` goes to subplot `i + 1`; the step that draws image `i` is its transpose `(i % 10) * 10 + i / 10` |
| Layout.GridLabels | visual.py:111-112 | with labels on, every cell is labelled with its row, which is its image index divided by 10; with labels off, no cell has a label |
| Layout.SaveGrid | visual.py:100-117 | succeeds exactly when the batch holds at least 100 images and raises IndexError otherwise; on success, the figure is the 10x10 trace saved at `visual/<name>/<ep>.png` |
| Layout.PairStepInverts | visual.py:82-88 | every step of `_save_img2img_gan` draws a subplot in 1..200, and `PairStep` recovers the step from that subplot |
| Layout.PairStepHits | visual.py:82-88 | every subplot 1..200 is the one drawn at step `PairStep(p)` |
| Layout.PairCellsOfPass | visual.py:82-91 | the pass with counter `i` at column `c` and row `r` draws `img1[i]` at `r*20+c+1` and `img2[i]` at `r*20+c+2` |
| Layout.PairCoverage | visual.py:82-90 | the map from step to subplot is a bijection onto 1..200, so every subplot is drawn exactly once |
| Layout.PairPlacement | visual.py:81-91 | step `j` shows image `j / 2`, from the first batch when `j` is even and from the second when it is odd; the second image of each pair sits just right of the first, and the first is in an odd subplot; no cell has a label |
| Layout.SaveImg2Img | visual.py:77-97 | succeeds exactly when both batches hold at least 100 images and raises IndexError otherwise; on success, the figure is the 10x20 trace of pairs saved at `visual/<name>/<ep>.png` |
| Occlusion.SquareInBounds | visual.py:52-54 | a square whose corner was drawn from `[0, size - w)` has side below `size` and lies strictly inside the plane, never touching the last row or column |
| Occlusion.SquareArea | visual.py:51-55 | each finished mask plane holds exactly `w * w` zeros |
| Occlusion.ZeroRect | visual.py:55 | `mask[i, x0:x1, y0:y1] = 0` zeroes exactly that rectangle of plane `i`; every other entry keeps its value |
| Occlusion.BuildMask | visual.py:49-55 | a fresh `n x size x size` mask that is 0 inside the square of each image and 1 everywhere else |
| Dispatch.KindOf | visual.py:30-70 | the if-chain picks a strategy exactly for the names in that strategy's list, and no strategy for a name in none of the lists; no name is served by two strategies |
| Dispatch.Take | visual.py:48 | `s[:n]` has length `min(|s|, n)` and agrees with `s` on that prefix |
| Dispatch.RepeatedLabels | visual.py:35 | `np.arange(0, count).repeat(10)` has length `10 * count` (0 when count is negative), and entry `i` is `i / 10` |
| Dispatch.SaveGan | visual.py:29-70 | raises exactly when no inference call was made. It succeeds exactly for a known name whose keyword images are present. An unknown name raises ValueError carrying the name; a missing `img`/`img6`/`img9` raises a bare ValueError. A success renders under the lower-cased name and the given epoch |
| Dispatch.Occluded | visual.py:56 | `input_img * mask` keeps the batch size, and image `i` is input image `i` occluded by its own square |
| Dispatch.ShownLabelIsConditioningLabel | visual.py:34-37 | for cgan and acgan the only inference call is `predict` on labels `arange(10).repeat(10)`; the grid is rendered, labelled, from exactly the images that call returns, and every cell shows the label its image was generated for |
| Dispatch.UnlabelledGrids | visual.py:31-44 | for the gan family the only inference call is `call(100)` and its images are rendered as an unlabelled grid; for infogan the only inference call is `predict` on the code with labels `arange(label_dim).repeat(10)` (entry `i` is `i / 10`, below `label_dim`), rendered unlabelled |
| Dispatch.CycleCalls | visual.py:61-68 | for cyclegan with both keyword batches present, the only inference calls are `g.call(img6[:50])` then `f.call(img9[:50])`, and the pair renderer gets `img6[:50] + img9[:50]` next to `g(img6[:50]) + f(img9[:50])` |
| Dispatch.CyclePairs | visual.py:61-68 | for cyclegan, when both `img6` and `img9` hold at least 50 images and `g` and `f` keep the batch length: the inference calls are `g.call(img6[:50])` then `f.call(img9[:50])`; for `k` in 0..49, pair `k` is `img6[k]` next to `g(img6[:50])[k]`; for `k` in 50..99, pair `k` is `img9[k - 50]` next to `f(img9[:50])[k - 50]` |
| Dispatch.ContextPairs | visual.py:45-60 | for ccgan, pair `k` is input image `k` under its mask next to the model's reconstruction of the occluded batch; `predict` is the only inference call; every square lies inside the image |
| Dispatch.RenderNeedsFullBatches | visual.py:45-68 | for generators `g`, `f` and a `predict` that keep the batch length: after a successful dispatch to the pair renderer, both batches hold at least 100 images exactly when ccgan was given at least 100 keyword images, or cyclegan at least 50 of each kind |
| Dispatch.SaveGanFigure | visual.py:29-70 | `save_gan` followed by its renderer: the ValueError of the dispatch is passed through. Otherwise it succeeds exactly when the batches are full, and raises IndexError when they are not. The figure is the grid or pair trace at `visual/<name>/<ep>.png` |
| Animation.Folders | visual.py:161-162 | a list argument is used as given; a model becomes the one-element list of its lower-cased class name |
| Animation.Tagged | visual.py:165-167 | `[folder + "/" + f for f in os.listdir(folder)]`: entry `j` is the path of the `j`-th listed name, carrying that file's modification time (the sort key of line 167) and its listing position `j` |
| Animation.Insert | visual.py:167 | inserting one entry into a sorted run lengthens it by one |
| Animation.SortByMtime | visual.py:167 | `sorted` returns as many entries as it was given |
| Animation.SortPermutes | visual.py:167 | sorting by modification time keeps every listed file, each as often as it was listed |
| Animation.SortOrdered | visual.py:167 | the sorted files come in increasing modification time and, among equal times, in listing order (Python's sort is stable) |
| Animation.IsFrame | visual.py:168-173 | a path is kept exactly when it ends in `.png` and `int()` accepts its base name up to the first `.` |
| Animation.FrameSelection | visual.py:165-173 | the frames are exactly the listed files that end in `.png` and whose base name up to its first `.` reads as an integer, in sorted order |
| Animation.Shrink | visual.py:175 | the shrunken image is `width // 10` by `height // 10` |
| Animation.CollectFrames | visual.py:166-176 | the inner loop produces the shrunken images of the selected frames, in sorted order |
| Animation.GifPathInFolder | visual.py:177 | the GIF of a folder is the file `generating.gif` directly in it, and different folders have different GIF paths |
| Animation.GifExistsMeans | visual.py:178 | `os.path.exists` on the GIF holds exactly when the folder was listed with a `generating.gif` or the same call already wrote that GIF |
| Animation.ListsMeans | visual.py:178 | a folder holds `generating.gif` exactly when some listed entry has that name |
| Animation.FolderStep | visual.py:177-181 | one folder: it raises nothing exactly when the folder holds a frame, and IndexError otherwise; its first effect is the removal of `generating.gif` when that file exists, and on success its last effect writes the folder's GIF; nothing else happens |
| Animation.ConvertFolder | visual.py:165-181 | the loops over one existing folder have exactly the effects and exception of `FolderStep` |
| Animation.ConvertNext | visual.py:163-181 | one pass of the outer loop composes with the rest of the run: a missing folder raises FileNotFoundError, and an exception ends the run |
| Animation.CvtGif | visual.py:160-182 | the removals, the GIFs written and the exception of `cvt_gif` are those of `Run` on the folders of the argument |
| Animation.Run | visual.py:163-181 | the only exceptions are IndexError and the FileNotFoundError of a listed folder that does not exist |
| Animation.RunSucceeds | visual.py:163-180 | the run raises nothing exactly when every folder exists and holds at least one frame |
| Animation.RunSavesFolderGifs | visual.py:177-181 | every GIF written is `<folder>/generating.gif` of one of the folders. It holds that folder's shrunken frames in order and is sized like the first frame. Each frame lasts 400 ms and the GIF loops forever |
| Animation.RunRemovesOnlyFolderGifs | visual.py:177-179 | every file removed is the `generating.gif` of one of the folders |
| Animation.RunReplacesRemovedGifs | visual.py:177-181 | each removal is followed at once by a GIF written at the same path, unless it is the last effect before an IndexError; an existing GIF is overwritten, never an error |
| Animation.RunReplacesFolderGifs | visual.py:163-181 | for every folder the run reaches: with frames, its GIF is written, directly after the removal of the old `generating.gif` whenever one exists (listed, or written earlier in the call); without frames, the run ends in IndexError, right after that removal if there was a file to remove |
| Animation.RunSavesEveryFolder | visual.py:163-181 | when `cvt_gif` raises nothing, every folder of the argument exists and a GIF of its own frames is written for it |
| Animation.GifIsNotAFrame | visual.py:168 | `generating.gif` never passes the frame test, so it never becomes a frame |
| Animation.SnapshotIsFrame | visual.py:164-173 | the snapshot that `save_gan` writes for a model at epoch `ep` lies in the folder `cvt_gif` reads for that model, passes the frame test, and its base name reads back as `ep` |

## Left out

- Drawing: the figure size, colormaps, `axis("off")`, `tight_layout`, the
  text position and font size, and the pixels of the saved PNG. A figure is
  its trace of subplots and its path.
- The rescaling of pixel values: `_img_recenter` (lines 73-74) and line 101
  are floating-point maps applied to the batches. The batches in the model
  are the ones before rescaling.
- The infogan style code (lines 40-41) is built with `np.linspace` in
  floating point. Only its label part is modelled.
- The multiplication `input_img * mask` is a parameter `occlude` applied to
  an image and its square. The mask itself is modelled by
  `Occlusion.BuildMask`.
- The trained model: `model.call`, `model.predict`, `model.g.call` and
  `model.f.call` are arbitrary functions, fields of the model value.
- Randomness: the widths and corners from `np.random.randint` are inputs,
  required to lie in the ranges they are drawn from. The ValueError numpy
  raises for an empty range, such as `mask_range[0] >= mask_range[1]` or a
  width not below `img_shape[0]`, is not modelled.
- Mask shape: each mask plane is `img_shape[0]` square, as the corner ranges
  assume. The channel axis and non-square images are not modelled.
- Directory creation (`os.makedirs`), the `print` in `cvt_gif`, and the
  decoding, resampling filter and encoding of PIL images. A frame is its path
  and its shrunken size; a GIF is its path, its blank first image's size, its
  frames, its frame duration and its loop count.
- The file system in `cvt_gif` is a snapshot taken before the call. A GIF
  written earlier in the same call counts as existing. Listings are not
  updated with written GIFs; by `Animation.GifIsNotAFrame` a GIF is never a
  frame anyway.
- Folders and files are identified by their path strings. Two names that
  reach the same folder (`gan`, `gan/`, `./gan`) are different folders to
  the model. So a GIF written for one of them does not count as existing
  for the other, although `os.path.exists` at line 178 would find it and
  line 179 would remove it.
- The trained model's batch sizes: nothing forces `model.g`, `model.f` or
  `model.predict` to return as many images as they are given.
  `Dispatch.CyclePairs` and `Dispatch.RenderNeedsFullBatches` assume that
  they do. `Dispatch.CycleCalls` and `Dispatch.SaveGanFigure` do not.
- Modification times are integers; ties keep the order `os.listdir` gives.
- Text.ParseInt: does not model the whole grammar of Python's `int()`. It
  accepts only an optional sign followed by ASCII digits, not surrounding
  whitespace, underscores or non-ASCII digits.
- Text.Lower: folds only ASCII letters, where Python's `str.lower` also
  folds other Unicode letters.
- `show_mnist` (lines 9-25) and `infogan_comp` (lines 120-157) are not part
  of this model: they load a dataset or model weights and only draw.
