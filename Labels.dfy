/** The raw-label allow-list and the label normaliser (convert_dataset.py, lines 34-70). */
module Labels {
  import opened Text
  import opened Taxonomy

  const Dots: seq<string> := Numbered("dots-")
  const Bamboo: seq<string> := Numbered("bamboo-")
  const Characters: seq<string> := Numbered("characters-")
  const WindsHonors: seq<string> := ["honors-east", "honors-south", "honors-west", "honors-north", "honors-red"]

  /** ALLOWED_RAW: the CSV labels the builder accepts. */
  const AllowedRaw: set<string> := set l | l in Dots + Bamboo + Characters + WindsHonors

  /** NORMALIZE: the honour-tile aliases and their short class names. */
  const Normalize: map<string, string> := map[
    "honors-east" := "east",
    "honors-south" := "south",
    "honors-west" := "west",
    "honors-north" := "north",
    "honors-red" := "red"
  ]

  /** The label as the builder compares it: stripped of surrounding whitespace, then lower-cased. */
  function Canon(s: string): string {
    Lower(Strip(s))
  }

  predicate HasSuitPrefix(l: string) {
    StartsWith(l, "bamboo-") || StartsWith(l, "dots-") || StartsWith(l, "characters-")
  }

  /** normalize_label: None for a missing label, otherwise the alias target, the canonical label itself
      when it carries a suit prefix, or None. */
  function NormalizeLabel(text: Option<string>): (r: Option<string>)
    ensures r.Some? ==> Canon(r.value) == r.value
    ensures r.Some? ==> r.value in Honors || HasSuitPrefix(r.value)
  {
    var s := if text.Some? then text.value else "";
    var l := Canon(s);
    if l in Normalize then
      NormalizeTargets();
      Some(Normalize[l])
    else if HasSuitPrefix(l) then
      StripLowerIdempotent(s);
      Some(l)
    else None
  }

  /** A string made of name characters only is its own canonical form. */
  lemma CanonOfNameChars(n: string)
    requires forall k :: 0 <= k < |n| ==> IsNameChar(n[k])
    ensures Canon(n) == n
  {
    assert Strip(n) == n by {
      if n != [] {
        assert IsNameChar(n[0]) && IsNameChar(n[|n| - 1]);
      }
      StripUnspaced(n);
    }
    assert Lower(n) == n by {
      forall k | 0 <= k < |n| ensures !('A' <= n[k] <= 'Z') {
        assert IsNameChar(n[k]);
      }
      LowerUnchanged(n);
    }
  }

  /** The keys of NORMALIZE are exactly the honours aliases, each already canonical, and every target
      is a canonical honour class name. */
  lemma NormalizeTargets()
    ensures Normalize.Keys == set a | a in WindsHonors
    ensures forall a :: a in Normalize ==> Canon(a) == a && Normalize[a] in Honors && Canon(Normalize[a]) == Normalize[a]
  {
    HonorsCanonical();
    AliasesCanonical();
  }

  /** The short honour names are canonical. */
  lemma HonorsCanonical()
    ensures forall j :: 0 <= j < |Honors| ==> Canon(Honors[j]) == Honors[j]
  {
    forall j | 0 <= j < |Honors| ensures Canon(Honors[j]) == Honors[j] {
      ClassNameAt(27 + j);
      CanonOfClassName(27 + j);
    }
  }

  /** The `honors-` aliases are canonical. */
  lemma AliasesCanonical()
    ensures forall j :: 0 <= j < |WindsHonors| ==> Canon(WindsHonors[j]) == WindsHonors[j]
  {
    forall j | 0 <= j < |WindsHonors| ensures Canon(WindsHonors[j]) == WindsHonors[j] {
      CanonOfNameChars(WindsHonors[j]);
    }
  }

  /** A missing label, and one that is empty once stripped, is rejected. */
  lemma NormalizeRejectsBlank(text: Option<string>)
    requires text.None? || Strip(text.value) == ""
    ensures NormalizeLabel(text) == None
  {
    var s := if text.Some? then text.value else "";
    assert Strip(s) == "";
    assert Canon(s) == "";
    assert "" !in Normalize;
    assert !HasSuitPrefix("");
  }

  /** An honours alias, in any case and with any surrounding whitespace, is rewritten to its short name. */
  lemma NormalizeHonors(text: string)
    requires Canon(text) in Normalize
    ensures NormalizeLabel(Some(text)) == Some(Normalize[Canon(text)])
    ensures Canon(text) in WindsHonors
  {
  }

  /** Every other label is returned in canonical form exactly when it starts with a suit prefix. */
  lemma NormalizePassThrough(text: string)
    requires Canon(text) !in Normalize
    ensures HasSuitPrefix(Canon(text)) ==> NormalizeLabel(Some(text)) == Some(Canon(text))
    ensures !HasSuitPrefix(Canon(text)) ==> NormalizeLabel(Some(text)) == None
  {
  }

  /** The short honour names are not themselves accepted: "east" normalises to None. */
  lemma ShortHonorNamesRejected(name: string)
    requires name in Honors
    ensures NormalizeLabel(Some(name)) == None
  {
    assert Canon(name) == name && name != [] && name[0] in "enrsw" by {
      var j :| 0 <= j < 5 && Honors[j] == name;
      ClassNameAt(27 + j);
      CanonOfClassName(27 + j);
      HonorInitial(j);
    }
    RejectedByInitial(name);
  }

  /** A canonical label starting with a letter that neither an alias nor a suit prefix starts with is
      rejected. */
  lemma RejectedByInitial(l: string)
    requires Canon(l) == l && l != [] && l[0] in "enrsw"
    ensures NormalizeLabel(Some(l)) == None
  {
    NotAlias(l);
    NoSuitPrefix(l);
    NormalizePassThrough(l);
  }

  /** Every short honour name starts with one of `e`, `n`, `r`, `s`, `w`. */
  lemma HonorInitial(j: nat)
    requires j < 5
    ensures Honors[j] != [] && Honors[j][0] in "enrsw"
  {
  }

  /** Every key of NORMALIZE starts with `h`. */
  lemma NotAlias(l: string)
    requires l == [] || l[0] != 'h'
    ensures l !in Normalize
  {
  }

  /** A label that does not start with `b`, `c` or `d` has no suit prefix. */
  lemma NoSuitPrefix(l: string)
    requires l == [] || l[0] !in "bcd"
    ensures !HasSuitPrefix(l)
  {
    if l != [] {
      assert !StartsWith(l, "bamboo-") by {
        if |l| >= 7 {
          assert l[..7][0] == l[0];
        }
      }
      assert !StartsWith(l, "dots-") by {
        if |l| >= 5 {
          assert l[..5][0] == l[0];
        }
      }
      assert !StartsWith(l, "characters-") by {
        if |l| >= 11 {
          assert l[..11][0] == l[0];
        }
      }
    }
  }

  /** A taxonomy name is already in canonical form. */
  lemma CanonOfClassName(i: nat)
    requires i < |ClassNames|
    ensures Canon(ClassNames[i]) == ClassNames[i]
  {
    ClassNameChars(i);
    CanonOfNameChars(ClassNames[i]);
  }

  /** The allowed raw labels, in closed form: the 27 numbered class names and the five honours aliases. */
  lemma AllowedRawShape(raw: string)
    ensures raw in AllowedRaw <==> (raw in ClassNames[..27] || raw in WindsHonors)
  {
    ClassNameAt(0);
    assert ClassNames[..27] == Bamboo + Characters + Dots;
  }

  /** For every allowed raw label the normaliser yields a taxonomy name: the `cls not in CLASS_TO_ID`
      guard of the row loop never fires for a row that passed the allow-list. */
  lemma AllowedRawNormalizes(raw: string)
    requires raw in AllowedRaw
    ensures NormalizeLabel(Some(raw)).Some?
    ensures NormalizeLabel(Some(raw)).value in ClassNames
    ensures NormalizeLabel(Some(raw)).value in ClassToId
  {
    var i := ClassOfAllowed(raw);
    ClassToIdIsPosition();
  }

  /** The class an allowed raw label normalises to. */
  lemma ClassOfAllowed(raw: string) returns (i: nat)
    requires raw in AllowedRaw
    ensures i < |ClassNames| && NormalizeLabel(Some(raw)) == Some(ClassNames[i])
  {
    assert |ClassNames| == 32 && (raw in ClassNames[..27] || raw in WindsHonors) by {
      AllowedRawShape(raw);
      ClassNameAt(0);
    }
    if raw in WindsHonors {
      // The alias order and the class order differ by a permutation that is its own inverse.
      var j :| 0 <= j < 5 && WindsHonors[j] == raw;
      i := 27 + [0, 3, 4, 1, 2][j];
      assert [0, 3, 4, 1, 2][i - 27] == j;
      HonorClassCovered(i);
    } else {
      i :| 0 <= i < 27 && ClassNames[i] == raw;
      NumberedClassCovered(i);
    }
  }

  /** Conversely every taxonomy class is the normalised form of some allowed raw label. */
  lemma AllowedRawCoversTaxonomy(i: nat)
    requires i < |ClassNames|
    ensures exists raw :: raw in AllowedRaw && NormalizeLabel(Some(raw)) == Some(ClassNames[i])
  {
    if i < 27 {
      NumberedClassCovered(i);
    } else {
      HonorClassCovered(i);
    }
  }

  /** A numbered class name is itself allowed, and passes through the normaliser unchanged. */
  lemma NumberedClassCovered(i: nat)
    requires i < 27
    ensures ClassNames[i] in AllowedRaw && NormalizeLabel(Some(ClassNames[i])) == Some(ClassNames[i])
  {
    var raw := ClassNames[i];
    assert raw in AllowedRaw by {
      AllowedRawShape(raw);
    }
    assert Canon(raw) == raw by {
      CanonOfClassName(i);
    }
    assert HasSuitPrefix(raw) && raw[0] != 'h' by {
      ClassNameAt(i);
    }
    NotAlias(raw);
  }

  /** An honour class is what the normaliser makes of its allowed `honors-` alias. */
  lemma HonorClassCovered(i: nat)
    requires 27 <= i < |ClassNames|
    ensures var raw := WindsHonors[[0, 3, 4, 1, 2][i - 27]];
      raw in AllowedRaw && NormalizeLabel(Some(raw)) == Some(ClassNames[i])
  {
    var raw := WindsHonors[[0, 3, 4, 1, 2][i - 27]];
    assert raw in AllowedRaw by {
      AllowedRawShape(raw);
    }
    assert Canon(raw) == raw && raw in Normalize by {
      NormalizeTargets();
    }
    NormalizeHonors(raw);
    assert ClassNames[i] == Honors[i - 27] by {
      ClassNameAt(i);
    }
    HonorPair(i - 27);
  }

  /** The i-th honour class name is what NORMALIZE makes of its `honors-` label. */
  lemma HonorPair(j: nat)
    requires j < 5
    ensures WindsHonors[[0, 3, 4, 1, 2][j]] in Normalize && Normalize[WindsHonors[[0, 3, 4, 1, 2][j]]] == Honors[j]
  {
  }
}
