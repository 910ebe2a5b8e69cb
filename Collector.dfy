/** The row loop of `main` (convert_dataset.py, lines 97-131): every CSV row is either collected as a
    (source image path, class id) entry or counted as skipped. */
module Collector {
  import opened Text
  import opened Taxonomy
  import opened Labels
  import opened Paths

  /** One CSV row: its `image-name` and `label-name` cells, None where the row has no such cell. */
  datatype Row = Row(image: Option<string>, labelName: Option<string>)

  /** A collected row: the resolved source image and the id of its class. */
  datatype Entry = Entry(src: string, classId: nat)

  datatype SkipReason = BlankField | NotAllowed | UnknownClass | BadImage

  datatype Verdict = Include(entry: Entry) | Skip(reason: SkipReason)

  /** `not cell`: a missing cell or an empty string. */
  predicate Blank(cell: Option<string>) {
    cell.None? || cell.value == ""
  }

  /** The decision the loop body takes for one row, with its four checks in the order the loop makes them.
      `onDisk` stands for Path.exists. */
  function RowVerdict(row: Row, images: string, onDisk: string -> bool): Verdict {
    if Blank(row.image) || Blank(row.labelName) then Skip(BlankField)
    else
      var raw := Canon(row.labelName.value);
      if raw !in AllowedRaw then Skip(NotAllowed)
      else
        var cls := NormalizeLabel(Some(raw));
        if cls.None? || cls.value !in ClassToId then Skip(UnknownClass)
        else
          var src := JoinPath(images, row.image.value);
          if !onDisk(src) || Lower(Suffix(src)) !in ImgExts then Skip(BadImage)
          else Include(Entry(src, ClassToId[cls.value]))
  }

  /** The entries the loop collects from `rows`, in CSV order. */
  function Collected(rows: seq<Row>, images: string, onDisk: string -> bool): seq<Entry> {
    if rows == [] then []
    else
      var init := Collected(rows[..|rows| - 1], images, onDisk);
      match RowVerdict(rows[|rows| - 1], images, onDisk)
      case Include(e) => init + [e]
      case Skip(_) => init
  }

  /** The loop itself: `rows.append` on an included row, and exactly one of the two counters moves per row. */
  method CollectRows(rows: seq<Row>, images: string, onDisk: string -> bool)
    returns (entries: seq<Entry>, included: nat, skipped: nat)
    ensures entries == Collected(rows, images, onDisk)
    ensures included == |entries|
    ensures included + skipped == |rows|
  {
    entries, included, skipped := [], 0, 0;
    for i := 0 to |rows|
      invariant entries == Collected(rows[..i], images, onDisk)
      invariant included == |entries|
      invariant included + skipped == i
    {
      assert rows[..i + 1][..i] == rows[..i];
      // The same four checks, in the same order, as RowVerdict.
      var row := rows[i];
      if Blank(row.image) || Blank(row.labelName) {
        skipped := skipped + 1;
        continue;
      }
      var raw := Canon(row.labelName.value);
      if raw !in AllowedRaw {
        skipped := skipped + 1;
        continue;
      }
      var cls := NormalizeLabel(Some(raw));
      if cls.None? || cls.value !in ClassToId {
        skipped := skipped + 1;
        continue;
      }
      var src := JoinPath(images, row.image.value);
      if !onDisk(src) || Lower(Suffix(src)) !in ImgExts {
        skipped := skipped + 1;
        continue;
      }
      entries := entries + [Entry(src, ClassToId[cls.value])];
      included := included + 1;
    }
    assert rows[..|rows|] == rows;
  }

  /** The four conditions under which a row is collected: both cells non-empty, the canonical label on
      the allow-list, and the resolved image present with an accepted extension. */
  predicate Eligible(row: Row, images: string, onDisk: string -> bool) {
    && !Blank(row.image) && !Blank(row.labelName)
    && Canon(row.labelName.value) in AllowedRaw
    && onDisk(JoinPath(images, row.image.value))
    && Lower(Suffix(JoinPath(images, row.image.value))) in ImgExts
  }

  /** The entry an eligible row stands for: its resolved image and the taxonomy position of its class. */
  function EntryOf(row: Row, images: string, onDisk: string -> bool): (e: Entry)
    requires Eligible(row, images, onDisk)
    ensures e.classId < |ClassNames|
    ensures NormalizeLabel(Some(Canon(row.labelName.value))) == Some(ClassNames[e.classId])
  {
    var raw := Canon(row.labelName.value);
    AllowedRawNormalizes(raw);
    var cls := NormalizeLabel(Some(raw)).value;
    ClassToIdInverse(cls);
    Entry(JoinPath(images, row.image.value), ClassToId[cls])
  }

  /** A row is collected exactly when it is eligible, as EntryOf describes it; the unknown-class branch
      is never taken. */
  lemma RowVerdictIncludesEligible(row: Row, images: string, onDisk: string -> bool)
    ensures RowVerdict(row, images, onDisk).Include? <==> Eligible(row, images, onDisk)
    ensures Eligible(row, images, onDisk) ==>
      RowVerdict(row, images, onDisk) == Include(EntryOf(row, images, onDisk))
    ensures RowVerdict(row, images, onDisk) != Skip(UnknownClass)
  {
    if !Blank(row.image) && !Blank(row.labelName) && Canon(row.labelName.value) in AllowedRaw {
      AllowedVerdict(row, images, onDisk);
    }
  }

  /** Past the first two checks, the class lookup always succeeds and only the image check decides. */
  lemma AllowedVerdict(row: Row, images: string, onDisk: string -> bool)
    requires !Blank(row.image) && !Blank(row.labelName) && Canon(row.labelName.value) in AllowedRaw
    ensures var src := JoinPath(images, row.image.value);
      var cls := NormalizeLabel(Some(Canon(row.labelName.value)));
      && cls.Some? && cls.value in ClassToId
      && RowVerdict(row, images, onDisk) ==
        if !onDisk(src) || Lower(Suffix(src)) !in ImgExts then Skip(BadImage)
        else Include(Entry(src, ClassToId[cls.value]))
  {
    AllowedRawNormalizes(Canon(row.labelName.value));
  }

  /** The reference selection: the entries of the eligible rows, in CSV order. */
  function Selected(rows: seq<Row>, images: string, onDisk: string -> bool): seq<Entry> {
    if rows == [] then []
    else if Eligible(rows[0], images, onDisk) then [EntryOf(rows[0], images, onDisk)] + Selected(rows[1..], images, onDisk)
    else Selected(rows[1..], images, onDisk)
  }

  /** Collecting a concatenation of row lists collects each part and keeps their order. */
  lemma {:induction false} CollectedAppend(a: seq<Row>, b: seq<Row>, images: string, onDisk: string -> bool)
    ensures Collected(a + b, images, onDisk) == Collected(a, images, onDisk) + Collected(b, images, onDisk)
    decreases |b|
  {
    if b != [] {
      var b' := b[..|b| - 1];
      assert (a + b)[..|a + b| - 1] == a + b';
      assert (a + b)[|a + b| - 1] == b[|b| - 1];
      CollectedAppend(a, b', images, onDisk);
    } else {
      assert a + b == a;
    }
  }

  /** The loop collects exactly the eligible rows, in CSV order. */
  lemma {:induction false} CollectedIsSelected(rows: seq<Row>, images: string, onDisk: string -> bool)
    ensures Collected(rows, images, onDisk) == Selected(rows, images, onDisk)
    decreases |rows|
  {
    if rows != [] {
      CollectedIsSelected(rows[1..], images, onDisk);
      assert rows == [rows[0]] + rows[1..];
      CollectedAppend([rows[0]], rows[1..], images, onDisk);
      CollectedSingle(rows[0], images, onDisk);
    }
  }

  /** A single row is collected exactly when it is eligible. */
  lemma CollectedSingle(row: Row, images: string, onDisk: string -> bool)
    ensures Collected([row], images, onDisk) ==
      if Eligible(row, images, onDisk) then [EntryOf(row, images, onDisk)] else []
  {
    assert [row][..0] == [];
    RowVerdictIncludesEligible(row, images, onDisk);
  }

  /** An entry as the loop may collect it: a valid class id, and an existing image with an accepted
      extension. */
  predicate ValidEntry(e: Entry, onDisk: string -> bool) {
    e.classId < |ClassNames| && onDisk(e.src) && Lower(Suffix(e.src)) in ImgExts
  }

  /** Every collected entry names an existing image with an accepted extension and a valid class id. */
  lemma CollectedEntriesValid(rows: seq<Row>, images: string, onDisk: string -> bool)
    ensures forall e :: e in Collected(rows, images, onDisk) ==> ValidEntry(e, onDisk)
  {
    forall row | RowVerdict(row, images, onDisk).Include?
      ensures ValidEntry(RowVerdict(row, images, onDisk).entry, onDisk)
    {
      IncludedEntryValid(row, images, onDisk);
    }
    CollectedKeeps(rows, images, onDisk, e => ValidEntry(e, onDisk));
  }

  /** A property of every entry the row verdict can include holds of every collected entry. */
  lemma {:induction false} CollectedKeeps(rows: seq<Row>, images: string, onDisk: string -> bool, p: Entry -> bool)
    requires forall row :: RowVerdict(row, images, onDisk).Include? ==> p(RowVerdict(row, images, onDisk).entry)
    ensures forall e :: e in Collected(rows, images, onDisk) ==> p(e)
    decreases |rows|
  {
    if rows != [] {
      var init := rows[..|rows| - 1];
      var before := Collected(init, images, onDisk);
      CollectedKeeps(init, images, onDisk, p);
      match RowVerdict(rows[|rows| - 1], images, onDisk)
      case Include(last) =>
        assert Collected(rows, images, onDisk) == before + [last];
      case Skip(_) =>
        assert Collected(rows, images, onDisk) == before;
    }
  }

  /** The loop collects at most one entry per row. */
  lemma {:induction false} CollectedLength(rows: seq<Row>, images: string, onDisk: string -> bool)
    ensures |Collected(rows, images, onDisk)| <= |rows|
    decreases |rows|
  {
    if rows != [] {
      CollectedLength(rows[..|rows| - 1], images, onDisk);
    }
  }

  /** The entry of an included row has a valid class id and names an existing image with an accepted
      extension. */
  lemma IncludedEntryValid(row: Row, images: string, onDisk: string -> bool)
    requires RowVerdict(row, images, onDisk).Include?
    ensures ValidEntry(RowVerdict(row, images, onDisk).entry, onDisk)
  {
    RowVerdictIncludesEligible(row, images, onDisk);
  }
}
