/** `main` (convert_dataset.py, lines 85-176) with its inputs made explicit: whether the CSV file exists,
    its parsed rows, the images directory, the destination root, Path.exists as `onDisk`, random.shuffle
    as `shuffle`, and the `--val` ratio as the rational valNum / valDen. The result is the outcome of the
    run and the file writes it performs, in order. */
module Pipeline {
  import opened Text
  import opened Paths
  import opened Collector
  import opened Split
  import opened Emit

  datatype Outcome =
    | CsvNotFound
    | NoEligibleImages(skipped: nat)
    | Built(included: nat, skipped: nat, val: seq<Entry>, train: seq<Entry>)

  /** The writes after the split: the train files, the val files, classes.txt, data.yaml. */
  function LayoutOps(dst: string, val: seq<Entry>, train: seq<Entry>): seq<FileOp> {
    SplitOps(dst, "train", train) + SplitOps(dst, "val", val)
      + [WriteFile(JoinPath(dst, "classes.txt"), ClassesText()), WriteFile(JoinPath(dst, "data.yaml"), YamlText(dst))]
  }

  method BuildDataset(csvFound: bool, rows: seq<Row>, images: string, dst: string,
                      onDisk: string -> bool, shuffle: seq<Entry> -> seq<Entry>,
                      valNum: int, valDen: nat)
    returns (outcome: Outcome, ops: seq<FileOp>)
    requires valDen > 0
    requires forall s :: multiset(shuffle(s)) == multiset(s)
    ensures outcome.CsvNotFound? <==> !csvFound
    ensures outcome.NoEligibleImages? <==> csvFound && Collected(rows, images, onDisk) == []
    ensures outcome.NoEligibleImages? ==> outcome.skipped == |rows|
    ensures !outcome.Built? ==> ops == []
    ensures outcome.Built? ==>
      var collected := Collected(rows, images, onDisk);
      var parts := SplitAt(shuffle(collected), ValCount(|collected|, valNum, valDen));
      && outcome.included == |collected| > 0
      && outcome.included + outcome.skipped == |rows|
      && outcome.val == parts.val && outcome.train == parts.train
      && multiset(outcome.val) + multiset(outcome.train) == multiset(collected)
      && ops == LayoutOps(dst, outcome.val, outcome.train)
    ensures outcome.Built? && 0 <= valNum <= valDen ==>
      |outcome.val| == (outcome.included * valNum) / valDen &&
      |outcome.train| == outcome.included - |outcome.val|
  {
    if !csvFound {
      return CsvNotFound, [];
    }
    var entries, included, skipped := CollectRows(rows, images, onDisk);
    if entries == [] {
      return NoEligibleImages(skipped), [];
    }
    var shuffled := shuffle(entries);
    assert |shuffled| == |entries| by {
      assert |multiset(shuffled)| == |multiset(entries)|;
    }
    var nVal := ValCount(|shuffled|, valNum, valDen);
    var parts := SplitAt(shuffled, nVal);
    SplitIsPermutation(entries, shuffled, nVal);
    if 0 <= valNum <= valDen {
      SplitSizes(shuffled, valNum, valDen);
    }
    var trainOps := EmitSplit(dst, "train", parts.train);
    var valOps := EmitSplit(dst, "val", parts.val);
    var classesText := ClassesText();
    var yamlText := DataYaml(dst);
    ops := trainOps + valOps
      + [WriteFile(JoinPath(dst, "classes.txt"), classesText), WriteFile(JoinPath(dst, "data.yaml"), yamlText)];
    outcome := Built(included, skipped, parts.val, parts.train);
  }

  /** Every entry of a split is copied into that split's images directory and gets its label file. */
  lemma SplitOpsCover(dst: string, split: string, entries: seq<Entry>)
    ensures forall k :: 0 <= k < |entries| ==>
      CopyFile(entries[k].src, ImageOut(dst, split, entries[k].src)) in SplitOps(dst, split, entries) &&
      WriteFile(LabelOut(dst, split, entries[k].src), LabelLine(entries[k].classId)) in SplitOps(dst, split, entries)
  {
    forall k | 0 <= k < |entries|
      ensures CopyFile(entries[k].src, ImageOut(dst, split, entries[k].src)) in SplitOps(dst, split, entries)
      ensures WriteFile(LabelOut(dst, split, entries[k].src), LabelLine(entries[k].classId)) in SplitOps(dst, split, entries)
    {
      SplitOpsAt(dst, split, entries, k);
    }
  }

  /** The layout writes two files per entry plus the two manifests, copies every training entry under
      train/ and every validation entry under val/, each with its label file, and ends with classes.txt
      and data.yaml. */
  lemma LayoutWritesEveryEntry(dst: string, val: seq<Entry>, train: seq<Entry>)
    ensures |LayoutOps(dst, val, train)| == 2 * (|train| + |val|) + 2
    ensures forall k :: 0 <= k < |train| ==>
      CopyFile(train[k].src, ImageOut(dst, "train", train[k].src)) in LayoutOps(dst, val, train) &&
      WriteFile(LabelOut(dst, "train", train[k].src), LabelLine(train[k].classId)) in LayoutOps(dst, val, train)
    ensures forall k :: 0 <= k < |val| ==>
      CopyFile(val[k].src, ImageOut(dst, "val", val[k].src)) in LayoutOps(dst, val, train) &&
      WriteFile(LabelOut(dst, "val", val[k].src), LabelLine(val[k].classId)) in LayoutOps(dst, val, train)
    ensures var ops := LayoutOps(dst, val, train);
      ops[|ops| - 2] == WriteFile(JoinPath(dst, "classes.txt"), ClassesText()) &&
      ops[|ops| - 1] == WriteFile(JoinPath(dst, "data.yaml"), YamlText(dst))
  {
    var ops := LayoutOps(dst, val, train);
    var trainOps := SplitOps(dst, "train", train);
    var valOps := SplitOps(dst, "val", val);
    var manifests := [WriteFile(JoinPath(dst, "classes.txt"), ClassesText()), WriteFile(JoinPath(dst, "data.yaml"), YamlText(dst))];
    assert ops == trainOps + valOps + manifests;
    assert |ops| == 2 * (|train| + |val|) + 2 by {
      SplitOpsLength(dst, "train", train);
      SplitOpsLength(dst, "val", val);
    }
    assert forall op :: op in trainOps ==> op in ops;
    assert forall op :: op in valOps ==> op in ops;
    SplitOpsCover(dst, "train", train);
    SplitOpsCover(dst, "val", val);
  }
}
