/** The fixed class taxonomy: CLASS_NAMES and CLASS_TO_ID (convert_dataset.py, lines 20-26). */
module Taxonomy {
  import opened Text

  /** The nine names `prefix1` .. `prefix9`, as the comprehension over range(1, 10) builds them. */
  function Numbered(prefix: string): (r: seq<string>)
    ensures |r| == 9
    ensures forall k :: 0 <= k < 9 ==> r[k] == prefix + NatToString(k + 1)
  {
    seq(9, k requires 0 <= k < 9 => prefix + NatToString(k + 1))
  }

  const Honors: seq<string> := ["east", "north", "red", "south", "west"]

  /** The ordered class list; a class's id is its position in this list. */
  const ClassNames: seq<string> :=
    Numbered("bamboo-") + Numbered("characters-") + Numbered("dots-") + Honors

  /** The dict comprehension {name: i for i, name in enumerate(names)}: later entries overwrite earlier ones. */
  function IdMap(names: seq<string>): map<string, nat> {
    if names == [] then map[]
    else IdMap(names[..|names| - 1])[names[|names| - 1] := |names| - 1]
  }

  const ClassToId: map<string, nat> := IdMap(ClassNames)

  predicate Distinct(names: seq<string>) {
    forall i, j :: 0 <= i < j < |names| ==> names[i] != names[j]
  }

  /** A lower-case letter, a digit or a hyphen: the only characters a class name uses. */
  predicate IsNameChar(c: char) {
    ('a' <= c <= 'z') || IsDigit(c) || c == '-'
  }

  /** The closed form of entry `i` of the taxonomy. */
  lemma ClassNameAt(i: nat)
    requires i < |ClassNames|
    ensures |ClassNames| == 32
    ensures i < 9 ==> ClassNames[i] == "bamboo-" + [DigitChar(i + 1)]
    ensures 9 <= i < 18 ==> ClassNames[i] == "characters-" + [DigitChar(i - 8)]
    ensures 18 <= i < 27 ==> ClassNames[i] == "dots-" + [DigitChar(i - 17)]
    ensures 27 <= i ==> ClassNames[i] == Honors[i - 27]
  {
  }

  /** CLASS_NAMES holds 32 pairwise different names. */
  lemma ClassNamesDistinct()
    ensures |ClassNames| == 32
    ensures Distinct(ClassNames)
  {
    ClassNameAt(0);
    forall i, j | 0 <= i < j < |ClassNames| ensures ClassNames[i] != ClassNames[j] {
      DistinctPair(i, j);
    }
  }

  /** Two names of the same suit differ in their last character (the rank); names of different
      groups differ in their first. */
  lemma DistinctPair(i: nat, j: nat)
    requires i < j < |ClassNames|
    ensures ClassNames[i] != ClassNames[j]
  {
    ClassNameAt(i);
    ClassNameAt(j);
    if j < 27 && i / 9 == j / 9 {
      var n := |ClassNames[i]| - 1;
      assert ClassNames[i][n] != ClassNames[j][n];
    } else {
      assert ClassNames[i][0] != ClassNames[j][0];
    }
  }

  /** Every class name is non-empty and built from lower-case letters, digits and hyphens only. */
  lemma ClassNameChars(i: nat)
    requires i < |ClassNames|
    ensures ClassNames[i] != []
    ensures forall k :: 0 <= k < |ClassNames[i]| ==> IsNameChar(ClassNames[i][k])
  {
    ClassNameAt(i);
  }

  /** Over a list of distinct names, the enumerate-comprehension maps each name to its position
      and has no other keys. */
  lemma {:induction false} IdMapPositions(names: seq<string>)
    requires Distinct(names)
    ensures IdMap(names).Keys == set n | n in names
    ensures forall i :: 0 <= i < |names| ==> names[i] in IdMap(names) && IdMap(names)[names[i]] == i
  {
    if names != [] {
      var init := names[..|names| - 1];
      var last := names[|names| - 1];
      IdMapPositions(init);
      assert names == init + [last];
      forall i | 0 <= i < |names| - 1 ensures names[i] != last && names[i] == init[i] {
      }
    }
  }

  /** CLASS_TO_ID[CLASS_NAMES[i]] == i for every position, and its keys are exactly the class names. */
  lemma ClassToIdIsPosition()
    ensures |ClassNames| == 32
    ensures ClassToId.Keys == set n | n in ClassNames
    ensures forall i :: 0 <= i < |ClassNames| ==> ClassNames[i] in ClassToId && ClassToId[ClassNames[i]] == i
  {
    ClassNamesDistinct();
    IdMapPositions(ClassNames);
  }

  /** Looking up an id and then the name at that id is the identity on class names. */
  lemma ClassToIdInverse(name: string)
    requires name in ClassToId
    ensures ClassToId[name] < |ClassNames| && ClassNames[ClassToId[name]] == name
  {
    ClassToIdIsPosition();
    var i :| 0 <= i < |ClassNames| && ClassNames[i] == name;
  }
}
