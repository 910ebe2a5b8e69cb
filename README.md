# Mahjong tile dataset builder: a Dafny model

`convert_dataset.py` builds a YOLO object-detection dataset from a CSV of labelled Mahjong tile photos.
It reads the `image-name` and `label-name` columns of each row and canonicalises the label (trim, lower
case). Rows whose label is not one of the 32 tiles of the Fujian subset are skipped; so are rows whose
image is missing or has an unsupported extension. Every other row becomes an entry
`(source image, class id)`. The entries are shuffled and split into a validation prefix and a training
rest. Each image is copied to `dst/{train,val}/images/`, and a one-line label file with a full-image
box is written to `dst/{train,val}/labels/`. Last, the script writes the class list `classes.txt` and
the YOLO manifest `data.yaml`.

The model follows the code module by module:

- `Text`: the Python string operations the script relies on. These are `str.strip`, `str.lower`,
  `startswith`, `str(int)` and `sep.join`, with lemmas on how they compose. `str.split` and a
  first-occurrence search are modelled only to read the emitted text back.
- `Taxonomy`: `CLASS_NAMES` and `CLASS_TO_ID`. The model proves that the 32 names are distinct and
  that the id map sends each name to its position.
- `Labels`: `ALLOWED_RAW`, `NORMALIZE` and `normalize_label`, with what the normaliser accepts and
  rejects.
- `Paths`: the parts of `pathlib` the script uses. These are `/`, `.stem` and `.suffix`, following
  pathlib's last-dot rule. `Name`, the final component, is the helper both are defined from.
- `Collector`: the row loop of `main`, written as a loop (`CollectRows`). It is proved equal to a
  row-by-row verdict function, and that function to an independent filter-and-map definition.
- `Split`: `int(len(rows) * val)` with truncation toward zero and Python slice semantics. This covers
  negative and greater-than-one ratios.
- `Emit`: the output of `write_label`, the output paths, the per-split copy/write loop, `classes.txt`
  and the `data.yaml` loop. `classes.txt` and `data.yaml` are proved to parse back to the same
  (id, name) table.
- `Pipeline`: `main` end to end. File-system effects are returned as a sequence of `FileOp`s, and
  the method's contract states the outcome and every write.

Inputs the program gets from its environment are parameters:
- whether the CSV exists, and its parsed rows;
- `Path.exists`, as the predicate `onDisk`;
- `random.shuffle`, as an arbitrary function that preserves the multiset of entries;
- the `--val` ratio, as the exact rational `valNum / valDen`.

Behaviours of the code worth knowing:

- The split is one global cut of the shuffled list (convert_dataset.py:138-141). It is not done per
  class, and a class's only image can land in validation (`Split.SplitIgnoresClasses`).
- `normalize_label` (convert_dataset.py:52-70) on its own passes any string that starts with `bamboo-`, `dots-` or
  `characters-`, not only ranks 1 to 9. It also rejects the bare honour names such as `east`. In
  `main` only `ALLOWED_RAW` labels reach it, so every label it sees maps into the taxonomy
  (`Labels.AllowedRawNormalizes`).
- Output file names are built from the source stem alone (convert_dataset.py:146-148). Two images with the same stem in one
  split (`a.jpg` and `a.png`) therefore write the same label file, and the later write wins.
  `Emit.OutputNamesPair` states the naming rule.

## Model

| member | source | states |
|---|---|---|
| Text.Strip | convert_dataset.py:56 | `str.strip()`: the input with its leading and trailing Python whitespace removed, by trimming the left end then the right end |
| Text.Lower | convert_dataset.py:56 | `str.lower()` on ASCII: the same length, each `A`-`Z` replaced by its lower-case letter and every other character kept |
| Text.Join | convert_dataset.py:155 | `sep.join(parts)`: the parts in order with one separator between neighbours; empty for no parts, the part itself for one |
| Text.TrimLeft | convert_dataset.py:56 | the result is a suffix of the input that does not start with whitespace, and every character removed is whitespace |
| Text.TrimRight | convert_dataset.py:56 | the result is a prefix of the input that does not end with whitespace, and every character removed is whitespace |
| Text.StripUnspaced | convert_dataset.py:56 | strip leaves a string without leading or trailing whitespace unchanged |
| Text.LowerUnchanged | convert_dataset.py:56 | lower leaves a string without upper-case letters unchanged |
| Text.LowerIdempotent | convert_dataset.py:56 | lowering twice is lowering once |
| Text.StripLowerIdempotent | convert_dataset.py:114 | canonicalising an already canonical label (strip then lower) changes nothing, so `normalize_label(raw)` sees `raw` as its own canonical form |
| Text.DigitChar | convert_dataset.py:21-23 | a digit below ten is written as a decimal digit character |
| Text.NatToString | convert_dataset.py:82 | `str(n)` is a non-empty run of decimal digits with no leading zero |
| Text.NatToStringRoundTrip | convert_dataset.py:82 | parsing `str(n)` as a decimal gives back `n` |
| Text.LowerCharKeepsNonSpace | convert_dataset.py:56 | lower-casing never turns a non-space character into whitespace |
| Text.IndexOf | convert_dataset.py:155 | the result is the first position of the character, or the length if there is none |
| Text.SplitOn | convert_dataset.py:155 | splitting always yields at least one piece |
| Text.SplitJoin | convert_dataset.py:155 | splitting `sep.join(parts)` on `sep` gives back `parts` when no part contains `sep` |
| Text.FirstSeparator | convert_dataset.py:155 | in `p + sep + rest` with no separator in `p`, the first separator follows `p` |
| Text.JoinSplit | convert_dataset.py:155 | joining the pieces of a split gives back the original text |
| Text.ConcatSnoc | convert_dataset.py:166-167 | concatenating one more line onto the text equals concatenating the longer list of lines |
| Taxonomy.ClassNames | convert_dataset.py:20-25 | `CLASS_NAMES`: bamboo 1-9, characters 1-9, dots 1-9, then east, north, red, south, west |
| Taxonomy.IdMap | convert_dataset.py:26 | `{name: i for i, name in enumerate(names)}`: each name maps to its index, a later duplicate overwriting an earlier one |
| Taxonomy.ClassToId | convert_dataset.py:26 | `CLASS_TO_ID`: the id map built from `CLASS_NAMES` |
| Taxonomy.Numbered | convert_dataset.py:21-23 | the numbered suit list has nine names: the prefix followed by 1 to 9 |
| Taxonomy.ClassNameAt | convert_dataset.py:20-25 | there are 32 class names: bamboo, characters and dots 1-9 at ids 0-26, then east, north, red, south, west |
| Taxonomy.ClassNamesDistinct | convert_dataset.py:20-25 | no class name occurs twice |
| Taxonomy.DistinctPair | convert_dataset.py:20-25 | two names at different positions differ: within a suit in the rank digit, across groups in the first letter |
| Taxonomy.ClassNameChars | convert_dataset.py:20-25 | every class name is non-empty and uses only lower-case letters, digits and `-` |
| Taxonomy.IdMapPositions | convert_dataset.py:26 | for distinct names, the enumerate-built dict has exactly those keys and sends each name to its index |
| Taxonomy.ClassToIdIsPosition | convert_dataset.py:26 | `CLASS_TO_ID` has exactly the class names as keys and maps `CLASS_NAMES[i]` to `i` |
| Taxonomy.ClassToIdInverse | convert_dataset.py:26 | every id in `CLASS_TO_ID` is a valid index whose name is the key |
| Labels.AllowedRaw | convert_dataset.py:34-38 | `ALLOWED_RAW`: the set of the dots, bamboo and characters 1-9 labels and the five `honors-` labels |
| Labels.Normalize | convert_dataset.py:41-48 | `NORMALIZE`: the five `honors-` aliases mapped to east, south, west, north and red |
| Labels.Canon | convert_dataset.py:56 | the canonical form of a label, `strip()` then `lower()` |
| Labels.HasSuitPrefix | convert_dataset.py:64-68 | the label starts with `bamboo-`, `dots-` or `characters-` |
| Labels.NormalizeLabel | convert_dataset.py:52-70 | any label returned is canonical and is either an honour class name or starts with a suit prefix |
| Labels.CanonOfNameChars | convert_dataset.py:56 | a label made of lower-case letters, digits and `-` is its own canonical form |
| Labels.NormalizeTargets | convert_dataset.py:37-48 | the keys of `NORMALIZE` are exactly the five raw honour labels; each is canonical and maps to a canonical honour class name |
| Labels.NormalizeRejectsBlank | convert_dataset.py:56-70 | a missing or all-whitespace label normalises to None |
| Labels.NormalizeHonors | convert_dataset.py:59-60 | a label that canonicalises to a raw honour label maps to its honour class |
| Labels.NormalizePassThrough | convert_dataset.py:64-70 | any other label is returned canonicalised when it has a suit prefix, and None otherwise |
| Labels.ShortHonorNamesRejected | convert_dataset.py:52-70 | the final honour names (`east`, ...) are not accepted as input labels |
| Labels.RejectedByInitial | convert_dataset.py:59-70 | a canonical label starting with `e`, `n`, `r`, `s` or `w` is neither an alias nor suit-prefixed, so it normalises to None |
| Labels.NotAlias | convert_dataset.py:41-48 | a label not starting with `h` is not a key of `NORMALIZE` |
| Labels.NoSuitPrefix | convert_dataset.py:64-68 | a label not starting with `b`, `c` or `d` has none of the three suit prefixes |
| Labels.HonorInitial | convert_dataset.py:24 | every short honour name starts with `e`, `n`, `r`, `s` or `w` |
| Labels.HonorsCanonical | convert_dataset.py:24 | the short honour names are canonical |
| Labels.AliasesCanonical | convert_dataset.py:37 | the `honors-` aliases are canonical |
| Labels.CanonOfClassName | convert_dataset.py:20-25 | every class name is its own canonical form |
| Labels.AllowedRawShape | convert_dataset.py:34-38 | `ALLOWED_RAW` is exactly the 27 numbered class names plus the five `honors-` labels |
| Labels.AllowedRawNormalizes | convert_dataset.py:119-120 | every allowed raw label normalises to a class name that has an id, so the unknown-class skip never fires |
| Labels.ClassOfAllowed | convert_dataset.py:115-120 | every allowed raw label normalises to the class name at some valid position |
| Labels.HonorPair | convert_dataset.py:41-48 | `NORMALIZE` maps the `honors-` alias of each short honour name to that name |
| Labels.AllowedRawCoversTaxonomy | convert_dataset.py:20-48 | every one of the 32 classes is reached by some allowed raw label |
| Labels.NumberedClassCovered | convert_dataset.py:34-36 | each numbered class name is an allowed raw label that normalises to itself |
| Labels.HonorClassCovered | convert_dataset.py:37-48 | each honour class is the image under `NORMALIZE` of an allowed `honors-` label |
| Paths.ImgExts | convert_dataset.py:50 | `IMG_EXTS`: `.jpg`, `.jpeg`, `.png`, `.bmp`, `.webp` |
| Paths.JoinPath | convert_dataset.py:124 | `dir / name` for a relative name: the two joined by one `/` |
| Paths.Name | convert_dataset.py:146-147 | pathlib's final component: the text after the last `/`, the whole path when there is none; the helper `Stem` and `Suffix` are built from |
| Paths.Suffix | convert_dataset.py:125 | pathlib's `suffix`: the final component from its last dot on, when that dot is neither its first nor its last character; empty otherwise |
| Paths.Stem | convert_dataset.py:146 | pathlib's `stem`: the final component up to its last dot under the same rule as `Suffix`; the whole component otherwise |
| Paths.RFind | convert_dataset.py:146-147 | the result is the last position of the character, or -1 if there is none |
| Paths.NameHasNoSeparator | convert_dataset.py:146-148 | a path's final component contains no separator |
| Paths.StemSuffixSplit | convert_dataset.py:146-147 | stem followed by suffix is the final component; a non-empty suffix is a dot and a dot-free tail, after a non-empty stem |
| Paths.NameOfJoin | convert_dataset.py:124 | the final component of `dir / name` is the final component of `name` |
| Paths.RFindIsLast | convert_dataset.py:146-147 | any position satisfying the last-occurrence property is the one the search returns |
| Paths.StemSuffixOfName | convert_dataset.py:146-148 | a stem without separators followed by a suffix is its own name, with exactly that stem and suffix |
| Paths.NamedParts | convert_dataset.py:146-148 | a path whose final component is stem plus suffix has that stem and that suffix |
| Paths.LowerSuffixForm | convert_dataset.py:125 | lower-casing keeps a suffix a suffix |
| Collector.RowVerdict | convert_dataset.py:108-130 | one pass of the row loop: skip on a blank image or label cell, on a canonical label outside `ALLOWED_RAW`, on a class that normalises to None or has no id, on a missing image or one whose lower-cased suffix is not in `IMG_EXTS`; otherwise include `(images / img, CLASS_TO_ID[cls])` |
| Collector.Collected | convert_dataset.py:107-131 | the `rows` list after the loop: the included entries of the rows in CSV order |
| Collector.CollectRows | convert_dataset.py:98-131 | the loop collects exactly the row-verdict entries in order; `included` counts them and `included + skipped` is the number of rows |
| Collector.EntryOf | convert_dataset.py:119-130 | an eligible row's class id is a valid index, and the class it names is what the row's label normalises to |
| Collector.RowVerdictIncludesEligible | convert_dataset.py:108-130 | a row is included iff both cells are non-empty, its canonical label is allowed, its image exists and has a supported extension; it is never skipped as an unknown class |
| Collector.CollectedAppend | convert_dataset.py:107-131 | collecting two batches of rows is collecting each and concatenating |
| Collector.CollectedIsSelected | convert_dataset.py:107-131 | the collected entries equal filtering the rows by eligibility and mapping each to its entry |
| Collector.CollectedSingle | convert_dataset.py:107-131 | one row yields its entry when eligible and nothing otherwise |
| Collector.CollectedEntriesValid | convert_dataset.py:124-130 | every collected entry has a valid class id and names an existing image with a supported extension |
| Collector.CollectedKeeps | convert_dataset.py:107-131 | a property of every entry the loop body can append holds of every collected entry |
| Collector.CollectedLength | convert_dataset.py:107-131 | the loop collects at most one entry per row |
| Collector.IncludedEntryValid | convert_dataset.py:119-130 | the entry of an included row has a valid class id and an existing image with a supported extension |
| Collector.AllowedVerdict | convert_dataset.py:119-130 | once a row passes the blank and allow-list checks, its class is found in `CLASS_TO_ID`, and only the image check decides between skip and include |
| Split.ValCount | convert_dataset.py:139 | `n_val = int(len(rows) * val)` with the ratio `valNum / valDen`: the product truncated toward zero |
| Split.Trunc | convert_dataset.py:139 | `int()` of the quotient truncates toward zero: bounds for both signs |
| Split.SliceBound | convert_dataset.py:140-141 | a slice bound is clamped to the list, and is unchanged when it is already within it |
| Split.SplitAt | convert_dataset.py:140-141 | validation then training is the shuffled list, and validation has the normalised slice length |
| Split.SplitSizes | convert_dataset.py:139-141 | for a ratio in [0, 1], validation holds floor(n * ratio) entries and training the rest |
| Split.FloorAtMost | convert_dataset.py:139 | for a ratio in [0, 1], floor(n * ratio) lies between 0 and n |
| Split.SplitIsPermutation | convert_dataset.py:138-141 | after a multiset-preserving shuffle, validation and training together are a permutation of the collected entries |
| Split.NegativeRatioSplit | convert_dataset.py:139-141 | for a ratio in [-1, 0), `rows[:n_val]` counts from the end: with q = floor(n * -ratio), training keeps exactly the last q entries when q > 0, and validation is empty when q = 0 |
| Split.SplitIgnoresClasses | convert_dataset.py:137-141 | with ratio 1/5 the only entry of a class can end up in validation, leaving that class no training entry |
| Emit.LabelLine | convert_dataset.py:82 | the text `write_label` writes: the id and the four default box fields joined by spaces, then a newline |
| Emit.ImageOut | convert_dataset.py:147 | `dst / split / "images" / (stem + suffix.lower())` |
| Emit.LabelOut | convert_dataset.py:148 | `dst / split / "labels" / (stem + ".txt")` |
| Emit.SplitOps | convert_dataset.py:145-151 | the writes of one split: for each entry in order, the copy of its image, then its label file |
| Emit.ClassesText | convert_dataset.py:154-156 | the text of `classes.txt`: the lines `i<TAB>name` joined by newlines, with no final newline |
| Emit.YamlText | convert_dataset.py:160-167 | the text of `data.yaml`: the fixed header with the destination root, then `  i: name` and a newline for each class |
| Emit.LabelLineText | convert_dataset.py:75-82 | the label line is the class id, a space, the default box text, then a newline |
| Emit.DefaultBoxText | convert_dataset.py:75-82 | the default box `x=y=0.5`, `w=h=0.9` with six decimals, space-separated, is `0.500000 0.500000 0.900000 0.900000` |
| Emit.LabelLineFields | convert_dataset.py:75-82 | the label line splits on spaces into the class id and the four box fields |
| Emit.OutputNamesPair | convert_dataset.py:146-148 | the image and label outputs keep the source stem; the image keeps the lower-cased suffix and the label gets `.txt` |
| Emit.TxtSuffixForm | convert_dataset.py:148 | `.txt` is a valid suffix |
| Emit.OutputParts | convert_dataset.py:146-147 | a source with a suffix has a non-empty, separator-free stem and a lower-cased suffix of valid form |
| Emit.EmitSplit | convert_dataset.py:144-151 | the per-split loop emits `SplitOps`' copy-and-label writes for every entry in order |
| Emit.SplitOpsSnoc | convert_dataset.py:145-151 | one more entry adds exactly its copy and its label write |
| Emit.SplitOpsAt | convert_dataset.py:145-151 | write 2k copies entry k's image into `images/` and write 2k+1 writes its label into `labels/` |
| Emit.SplitOpsLength | convert_dataset.py:145-151 | a split of n entries performs 2n writes |
| Emit.ClassLineChars | convert_dataset.py:155 | ids and class names contain no tab, newline or colon |
| Emit.ClassesTextRoundTrip | convert_dataset.py:153-157 | `classes.txt` splits back into its 32 lines, and line i parses as `(i, CLASS_NAMES[i])` |
| Emit.ClassLineParses | convert_dataset.py:155 | line i of `classes.txt` parses as `(i, CLASS_NAMES[i])` |
| Emit.DataYaml | convert_dataset.py:160-168 | the loop builds the header followed by one `  i: name` line per class |
| Emit.YamlStep | convert_dataset.py:166-167 | one loop step appends exactly the next name line |
| Emit.YamlLineShape | convert_dataset.py:167 | a `names:` line is two spaces, the id and `" " + name` joined by a colon, and a newline |
| Emit.FramedLine | convert_dataset.py:167 | the `  i: n` line format frames the colon-joined pair between two spaces and a newline |
| Emit.YamlFieldsSplit | convert_dataset.py:167 | a `names:` line's id and name field split apart at the only colon |
| Emit.ManifestsAgree | convert_dataset.py:153-168 | name line i of `data.yaml` parses to the same `(i, name)` as line i of `classes.txt` |
| Pipeline.LayoutOps | convert_dataset.py:144-168 | all writes of a run: the train split's, then the val split's, then `classes.txt`, then `data.yaml` |
| Pipeline.BuildDataset | convert_dataset.py:85-168 | a missing CSV writes nothing. No eligible row writes nothing and counts every row as skipped. Otherwise the counts add up, val/train are the split of the shuffled entries and a permutation of them, floor(n * ratio) go to validation, and the writes are the layout |
| Pipeline.SplitOpsCover | convert_dataset.py:144-151 | every entry of a split is copied to that split's images and gets its label file |
| Pipeline.LayoutWritesEveryEntry | convert_dataset.py:143-168 | the run writes 2 files per entry plus 2; every train and val entry is copied and labelled under its split; the last writes are `classes.txt` then `data.yaml` |

## Left out

- Command-line parsing, CSV decoding, `mkdir`, `shutil.copy2`'s metadata copy and the console messages are
  I/O. The CSV's rows and its existence are inputs. Copies and writes are `FileOp` values in
  order, and directory creation is implied by the paths.
- `random.seed` and the Mersenne-Twister shuffle are not modelled. The shuffle is any function that
  preserves the multiset of entries, so the split's properties hold for every seed.
- The `--val` ratio is a float. The model uses an exact rational, so the rounding of `len(rows) * val`
  in binary floating point is not captured. Nor is the error `int(len(rows) * val)` raises for a
  non-finite ratio (`--val nan` or `--val inf`) or a product that overflows to infinity: the program
  then stops after collection and before any write, while the model always has a finite split.
- `write_label` formats the box with `:.6f`. Only the default box that `main` uses is modelled,
  as its fixed text.
- `Text.Lower` lowers ASCII `A`-`Z` only. Python's Unicode lower-casing of other letters is not
  modelled. This is harmless for the labels `main` accepts: every allowed label's canonical form is
  ASCII, and the only non-ASCII character Python lowers to a bare ASCII letter, the Kelvin sign (to
  `k`), occurs in no allowed label.
- `Paths`: `pathlib` normalisation is not modelled. This covers repeated or trailing separators, `.`
  components, absolute `img` values replacing the images root, and `Path.resolve` in the final
  message. Paths are joined with a single `/`.
- `Emit.OutputNamesPair` requires a non-empty suffix. Every image that `main` includes has one,
  because its lower-cased suffix is in `IMG_EXTS`.
- Which file wins when two outputs share a name depends on write order. It is visible in the op
  sequence, but no lemma states it.
- `app.py` and the `static/` web front end are not part of this model.
