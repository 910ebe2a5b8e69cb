/** What `main` writes once the split is known (convert_dataset.py, lines 72-82 and 143-168): per
    image a copy under `<dst>/<split>/images/` and a YOLO label file under `<dst>/<split>/labels/`, then
    `classes.txt` and `data.yaml`. The writes are returned as a list of file operations. */
module Emit {
  import opened Text
  import opened Taxonomy
  import opened Paths
  import opened Collector

  /** One filesystem effect: shutil.copy2 or a text write. */
  datatype FileOp = CopyFile(src: string, dst: string) | WriteFile(path: string, text: string)

  /** The box fields write_label emits for its default arguments x = y = 0.5, w = h = 0.9. */
  const DefaultBox: seq<string> := ["0.500000", "0.500000", "0.900000", "0.900000"]

  /** The single line of a label file: the class id and the four box fields, separated by spaces. */
  function LabelLine(classId: nat): string {
    Join([NatToString(classId)] + DefaultBox, ' ') + "\n"
  }

  /** The default full-image box as it appears in every label line. */
  const BoxText: string := "0.500000 0.500000 0.900000 0.900000"

  /** For every class id the label line is the id, a space, `0.500000 0.500000 0.900000 0.900000` and a
      newline. */
  lemma LabelLineText(classId: nat)
    ensures LabelLine(classId) == NatToString(classId) + " " + BoxText + "\n"
  {
    var fields := [NatToString(classId)] + DefaultBox;
    assert fields[1..] == DefaultBox;
    DefaultBoxText();
  }

  /** The four default box fields joined by spaces. */
  lemma DefaultBoxText()
    ensures Join(DefaultBox, ' ') == BoxText
  {
    assert DefaultBox[1..][1..][1..] == ["0.900000"];
  }

  /** A label line ends with a newline, and its five space-separated fields read back as the class id
      followed by the default box. */
  lemma LabelLineFields(classId: nat)
    ensures var line := LabelLine(classId);
      && line[|line| - 1] == '\n'
      && SplitOn(line[..|line| - 1], ' ') == [NatToString(classId)] + DefaultBox
      && ParseNat(SplitOn(line[..|line| - 1], ' ')[0]) == Some(classId)
  {
    var line := LabelLine(classId);
    var fields := [NatToString(classId)] + DefaultBox;
    assert line[..|line| - 1] == Join(fields, ' ');
    forall i | 0 <= i < |fields| ensures ' ' !in fields[i] {
      if i == 0 {
        assert forall k :: 0 <= k < |fields[0]| ==> IsDigit(fields[0][k]);
      }
    }
    SplitJoin(fields, ' ');
    NatToStringRoundTrip(classId);
  }

  /** `stem + suffix.lower()`: the name under which an image is copied. */
  function ImageName(src: string): string {
    Stem(src) + Lower(Suffix(src))
  }

  /** `stem + ".txt"`: the name of an image's label file. */
  function LabelName(src: string): string {
    Stem(src) + ".txt"
  }

  function ImageOut(dst: string, split: string, src: string): string {
    JoinPath(JoinPath(JoinPath(dst, split), "images"), ImageName(src))
  }

  function LabelOut(dst: string, split: string, src: string): string {
    JoinPath(JoinPath(JoinPath(dst, split), "labels"), LabelName(src))
  }

  /** For a source with an extension (every collected image has one), the copied image and its label
      file are named after the source's stem: the image keeps the lower-cased extension, the label takes
      `.txt`. */
  lemma OutputNamesPair(dst: string, split: string, src: string)
    requires Suffix(src) != ""
    ensures Name(ImageOut(dst, split, src)) == ImageName(src)
    ensures Stem(ImageOut(dst, split, src)) == Stem(src)
    ensures Suffix(ImageOut(dst, split, src)) == Lower(Suffix(src))
    ensures Name(LabelOut(dst, split, src)) == LabelName(src)
    ensures Stem(LabelOut(dst, split, src)) == Stem(src)
    ensures Suffix(LabelOut(dst, split, src)) == ".txt"
  {
    OutputParts(src);
    TxtSuffixForm();
    StemSuffixOfName(Stem(src), Lower(Suffix(src)));
    StemSuffixOfName(Stem(src), ".txt");
    NameOfJoin(JoinPath(JoinPath(dst, split), "images"), ImageName(src));
    NameOfJoin(JoinPath(JoinPath(dst, split), "labels"), LabelName(src));
    NamedParts(ImageOut(dst, split, src), Stem(src), Lower(Suffix(src)));
    NamedParts(LabelOut(dst, split, src), Stem(src), ".txt");
  }

  lemma TxtSuffixForm()
    ensures IsSuffixForm(".txt")
  {
  }

  /** The pieces an output name is made of: a non-empty stem without separators and a lower-cased
      extension of the suffix form. */
  lemma OutputParts(src: string)
    requires Suffix(src) != ""
    ensures IsSuffixForm(Lower(Suffix(src))) && Stem(src) != []
    ensures forall k :: 0 <= k < |Stem(src)| ==> Stem(src)[k] != '/'
  {
    StemSuffixSplit(src);
    LowerSuffixForm(Suffix(src));
  }

  /** The two writes the inner loop makes for one entry: the copy, then the label file. */
  function EntryOps(dst: string, split: string, e: Entry): seq<FileOp> {
    [CopyFile(e.src, ImageOut(dst, split, e.src)), WriteFile(LabelOut(dst, split, e.src), LabelLine(e.classId))]
  }

  /** The writes for one split, entry after entry. */
  function SplitOps(dst: string, split: string, entries: seq<Entry>): seq<FileOp> {
    if entries == [] then []
    else SplitOps(dst, split, entries[..|entries| - 1]) + EntryOps(dst, split, entries[|entries| - 1])
  }

  /** The inner loop of the layout writer, for one split. */
  method EmitSplit(dst: string, split: string, entries: seq<Entry>) returns (ops: seq<FileOp>)
    ensures ops == SplitOps(dst, split, entries)
  {
    ops := [];
    for i := 0 to |entries|
      invariant ops == SplitOps(dst, split, entries[..i])
    {
      var e := entries[i];
      var outImg := ImageOut(dst, split, e.src);
      var outLbl := LabelOut(dst, split, e.src);
      ops := ops + [CopyFile(e.src, outImg), WriteFile(outLbl, LabelLine(e.classId))];
      SplitOpsSnoc(dst, split, entries, i);
    }
    assert entries[..|entries|] == entries;
  }

  lemma SplitOpsSnoc(dst: string, split: string, entries: seq<Entry>, i: nat)
    requires i < |entries|
    ensures SplitOps(dst, split, entries[..i + 1]) == SplitOps(dst, split, entries[..i]) + EntryOps(dst, split, entries[i])
  {
    assert entries[..i + 1][..i] == entries[..i];
  }

  /** Entry k of a split is copied by operation 2k and labelled by operation 2k + 1. */
  lemma {:induction false} SplitOpsAt(dst: string, split: string, entries: seq<Entry>, k: nat)
    requires k < |entries|
    ensures |SplitOps(dst, split, entries)| == 2 * |entries|
    ensures SplitOps(dst, split, entries)[2 * k] == CopyFile(entries[k].src, ImageOut(dst, split, entries[k].src))
    ensures SplitOps(dst, split, entries)[2 * k + 1] == WriteFile(LabelOut(dst, split, entries[k].src), LabelLine(entries[k].classId))
    decreases |entries|
  {
    var init := entries[..|entries| - 1];
    SplitOpsLength(dst, split, init);
    if k < |entries| - 1 {
      SplitOpsAt(dst, split, init, k);
    }
  }

  lemma {:induction false} SplitOpsLength(dst: string, split: string, entries: seq<Entry>)
    ensures |SplitOps(dst, split, entries)| == 2 * |entries|
    decreases |entries|
  {
    if entries != [] {
      SplitOpsLength(dst, split, entries[..|entries| - 1]);
    }
  }

  /** The lines of classes.txt: the id, a tab, the class name. */
  function ClassLines(): seq<string> {
    seq(|ClassNames|, i requires 0 <= i < |ClassNames| => NatToString(i) + "\t" + ClassNames[i])
  }

  /** classes.txt: the class lines joined by newlines, without a trailing newline. */
  function ClassesText(): string {
    Join(ClassLines(), '\n')
  }

  /** An (id, name) pair as a reader of the emitted files recovers it. */
  datatype ClassEntry = ClassEntry(id: nat, name: string)

  /** Reads one classes.txt line back: digits, a tab, then the name. */
  function ParseClassLine(line: string): Option<ClassEntry> {
    var fields := SplitOn(line, '\t');
    if |fields| == 2 && ParseNat(fields[0]).Some? then Some(ClassEntry(ParseNat(fields[0]).value, fields[1]))
    else None
  }

  /** No class line contains a separator used by the two manifests. */
  lemma ClassLineChars(i: nat)
    requires i < |ClassNames|
    ensures '\t' !in NatToString(i) && '\n' !in NatToString(i) && ':' !in NatToString(i)
    ensures '\t' !in ClassNames[i] && '\n' !in ClassNames[i] && ':' !in ClassNames[i]
  {
    ClassNameChars(i);
    var d := NatToString(i);
    assert forall k :: 0 <= k < |d| ==> IsDigit(d[k]);
  }

  /** classes.txt splits into exactly the 32 class lines, and line i reads back as (i, CLASS_NAMES[i]). */
  lemma ClassesTextRoundTrip()
    ensures SplitOn(ClassesText(), '\n') == ClassLines()
    ensures |ClassLines()| == |ClassNames|
    ensures forall i :: 0 <= i < |ClassNames| ==> ParseClassLine(ClassLines()[i]) == Some(ClassEntry(i, ClassNames[i]))
  {
    ClassNameAt(0);
    forall i | 0 <= i < |ClassNames| ensures '\n' !in ClassLines()[i] {
      ClassLineChars(i);
    }
    SplitJoin(ClassLines(), '\n');
    forall i | 0 <= i < |ClassNames| ensures ParseClassLine(ClassLines()[i]) == Some(ClassEntry(i, ClassNames[i])) {
      ClassLineParses(i);
    }
  }

  lemma ClassLineParses(i: nat)
    requires i < |ClassNames|
    ensures ParseClassLine(ClassLines()[i]) == Some(ClassEntry(i, ClassNames[i]))
  {
    var fields := [NatToString(i), ClassNames[i]];
    assert ClassLines()[i] == Join(fields, '\t');
    ClassLineChars(i);
    SplitJoin(fields, '\t');
    NatToStringRoundTrip(i);
  }

  /** The fixed head of data.yaml, with the destination root. */
  function YamlHeader(dst: string): string {
    "# Auto-generated\npath: " + dst + "\ntrain: train/images\nval: val/images\nnames:\n"
  }

  /** One line of the `names:` block. */
  function YamlNameLine(i: nat): string
    requires i < |ClassNames|
  {
    "  " + NatToString(i) + ": " + ClassNames[i] + "\n"
  }

  function YamlNameLines(): seq<string> {
    seq(|ClassNames|, i requires 0 <= i < |ClassNames| => YamlNameLine(i))
  }

  /** data.yaml as written. */
  function YamlText(dst: string): string {
    YamlHeader(dst) + Concat(YamlNameLines())
  }

  /** The `yaml_text +=` loop. */
  method DataYaml(dst: string) returns (text: string)
    ensures text == YamlText(dst)
  {
    text := YamlHeader(dst);
    for i := 0 to |ClassNames|
      invariant text == YamlHeader(dst) + Concat(YamlNameLines()[..i])
    {
      var line := "  " + NatToString(i) + ": " + ClassNames[i] + "\n";
      YamlStep(dst, text, i);
      text := text + line;
    }
    assert YamlNameLines()[..|ClassNames|] == YamlNameLines();
  }

  lemma YamlStep(dst: string, text: string, i: nat)
    requires i < |ClassNames|
    requires text == YamlHeader(dst) + Concat(YamlNameLines()[..i])
    ensures text + ("  " + NatToString(i) + ": " + ClassNames[i] + "\n") == YamlHeader(dst) + Concat(YamlNameLines()[..i + 1])
  {
    var lines := YamlNameLines();
    ConcatSnoc(lines, i);
    assert lines[i] == "  " + NatToString(i) + ": " + ClassNames[i] + "\n";
    AppendAssoc(YamlHeader(dst), Concat(lines[..i]), lines[i]);
  }

  /** Reads one `names:` line back: two spaces, digits, a colon, a space, the name, a newline. */
  function ParseYamlNameLine(line: string): Option<ClassEntry> {
    if |line| < 3 || line[..2] != "  " || line[|line| - 1] != '\n' then None
    else
      var fields := SplitOn(line[2..|line| - 1], ':');
      if |fields| == 2 && ParseNat(fields[0]).Some? && |fields[1]| >= 1 && fields[1][0] == ' '
      then Some(ClassEntry(ParseNat(fields[0]).value, fields[1][1..]))
      else None
  }

  /** data.yaml and classes.txt give every class the same id, its position in CLASS_NAMES. */
  lemma ManifestsAgree(i: nat)
    requires i < |ClassNames|
    ensures ParseYamlNameLine(YamlNameLines()[i]) == Some(ClassEntry(i, ClassNames[i]))
    ensures ParseYamlNameLine(YamlNameLines()[i]) == ParseClassLine(ClassLines()[i])
  {
    var line := YamlNameLines()[i];
    var fields := [NatToString(i), " " + ClassNames[i]];
    YamlLineShape(i);
    assert SplitOn(line[2..|line| - 1], ':') == fields by {
      YamlFieldsSplit(i);
    }
    NatToStringRoundTrip(i);
    assert fields[1][1..] == ClassNames[i];
    ClassLineParses(i);
  }

  /** A `names:` line is two spaces, the id and the name joined by a colon, and a newline. */
  lemma YamlLineShape(i: nat)
    requires i < |ClassNames|
    ensures var line := YamlNameLines()[i];
      && |line| >= 3 && line[..2] == "  " && line[|line| - 1] == '\n'
      && line[2..|line| - 1] == Join([NatToString(i), " " + ClassNames[i]], ':')
  {
    assert YamlNameLines()[i] == "  " + NatToString(i) + ": " + ClassNames[i] + "\n";
    FramedLine(NatToString(i), ClassNames[i]);
  }

  /** Two spaces, `d: n` and a newline: the colon-joined pair framed as a `names:` line. */
  lemma FramedLine(d: string, n: string)
    ensures var line := "  " + d + ": " + n + "\n";
      && |line| >= 3 && line[..2] == "  " && line[|line| - 1] == '\n'
      && line[2..|line| - 1] == Join([d, " " + n], ':')
  {
    var line := "  " + d + ": " + n + "\n";
    assert Join([d, " " + n], ':') == d + [':'] + (" " + n) by {
      assert [d, " " + n][1..] == [" " + n];
    }
    assert line[2..|line| - 1] == d + ": " + n;
  }

  /** The id and the name field of a `names:` line split apart at the colon. */
  lemma YamlFieldsSplit(i: nat)
    requires i < |ClassNames|
    ensures SplitOn(Join([NatToString(i), " " + ClassNames[i]], ':'), ':') == [NatToString(i), " " + ClassNames[i]]
  {
    var fields := [NatToString(i), " " + ClassNames[i]];
    ClassLineChars(i);
    assert ':' !in fields[1];
    SplitJoin(fields, ':');
  }
}
