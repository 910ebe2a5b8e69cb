/** The pathlib operations the builder uses on image paths: joining a directory and a name, the final
    component (`name`), its extension (`suffix`) and the name without it (`stem`). Paths are strings with
    '/' as separator. */
module Paths {
  import opened Text

  /** IMG_EXTS: the accepted image extensions, compared after lower-casing. */
  const ImgExts: set<string> := {".jpg", ".jpeg", ".png", ".bmp", ".webp"}

  /** `dir / name` for a relative name. */
  function JoinPath(dir: string, name: string): string {
    dir + "/" + name
  }

  /** Python's str.rfind for one character: the index of the last `c` in `s`, or -1. */
  function RFind(s: string, c: char): (k: int)
    ensures -1 <= k < |s|
    ensures k >= 0 ==> s[k] == c
    ensures forall i :: k < i < |s| ==> s[i] != c
  {
    if s == [] then -1
    else if s[|s| - 1] == c then |s| - 1
    else RFind(s[..|s| - 1], c)
  }

  /** PurePath.name: the text after the last separator. */
  function Name(p: string): string {
    p[RFind(p, '/') + 1..]
  }

  /** PurePath.suffix: the name from its last dot on, provided that dot is neither its first nor its
      last character; otherwise empty. */
  function Suffix(p: string): string {
    var n := Name(p);
    var i := RFind(n, '.');
    if 0 < i < |n| - 1 then n[i..] else ""
  }

  /** PurePath.stem: the name without its suffix. */
  function Stem(p: string): string {
    var n := Name(p);
    var i := RFind(n, '.');
    if 0 < i < |n| - 1 then n[..i] else n
  }

  /** The shape of a non-empty suffix: a dot followed by at least one character, none of them a dot
      or a separator. */
  predicate IsSuffixForm(x: string) {
    |x| >= 2 && x[0] == '.' && forall k :: 1 <= k < |x| ==> x[k] != '.' && x[k] != '/'
  }

  /** The final component of a path carries no separator. */
  lemma NameHasNoSeparator(p: string)
    ensures forall k :: 0 <= k < |Name(p)| ==> Name(p)[k] != '/'
  {
    var r := RFind(p, '/');
    forall k | 0 <= k < |Name(p)| ensures Name(p)[k] != '/' {
      assert Name(p)[k] == p[r + 1 + k];
    }
  }

  /** Stem and suffix split the name: stem + suffix == name; a non-empty suffix has the suffix form
      and then the stem is non-empty. */
  lemma StemSuffixSplit(p: string)
    ensures Stem(p) + Suffix(p) == Name(p)
    ensures Suffix(p) != "" ==> IsSuffixForm(Suffix(p)) && Stem(p) != ""
    ensures forall k :: 0 <= k < |Stem(p)| ==> Stem(p)[k] != '/'
  {
    NameHasNoSeparator(p);
    var n := Name(p);
    var i := RFind(n, '.');
    if 0 < i < |n| - 1 {
      assert n == n[..i] + n[i..];
      forall k | 1 <= k < |n[i..]| ensures n[i..][k] != '.' && n[i..][k] != '/' {
        assert n[i..][k] == n[i + k];
      }
    }
  }

  /** Joining a name onto a directory keeps the name's final component. */
  lemma {:induction false} NameOfJoin(dir: string, name: string)
    ensures Name(JoinPath(dir, name)) == Name(name)
  {
    var p := JoinPath(dir, name);
    var r := RFind(name, '/');
    var q := RFind(p, '/');
    assert p[|dir|] == '/';
    assert q == |dir| + 1 + r by {
      forall j | |dir| + 1 + r < j < |p| ensures p[j] != '/' {
        assert p[j] == name[j - |dir| - 1];
      }
      if r >= 0 {
        assert p[|dir| + 1 + r] == name[r];
      }
      RFindIsLast(p, '/', |dir| + 1 + r);
    }
    assert p[q + 1..] == name[r + 1..];
  }

  /** RFind is the unique position holding `c` with no `c` after it. */
  lemma RFindIsLast(s: string, c: char, k: int)
    requires -1 <= k < |s|
    requires k >= 0 ==> s[k] == c
    requires forall i :: k < i < |s| ==> s[i] != c
    ensures RFind(s, c) == k
  {
  }

  /** A name made of a non-empty stem and a suffix-form extension splits back into exactly those two. */
  lemma {:induction false} StemSuffixOfName(stem: string, ext: string)
    requires stem != [] && forall k :: 0 <= k < |stem| ==> stem[k] != '/'
    requires IsSuffixForm(ext)
    ensures Name(stem + ext) == stem + ext
    ensures RFind(stem + ext, '.') == |stem|
    ensures Stem(stem + ext) == stem && Suffix(stem + ext) == ext
  {
    var n := stem + ext;
    assert Name(n) == n by {
      forall j | 0 <= j < |n| ensures n[j] != '/' {
        if j >= |stem| {
          assert n[j] == ext[j - |stem|];
        }
      }
      RFindIsLast(n, '/', -1);
      assert n[0..] == n;
    }
    assert RFind(n, '.') == |stem| by {
      forall j | |stem| < j < |n| ensures n[j] != '.' {
        assert n[j] == ext[j - |stem|];
      }
      RFindIsLast(n, '.', |stem|);
    }
    assert n[..|stem|] == stem && n[|stem|..] == ext;
  }

  /** A path whose final component is a stem followed by a suffix-form extension has exactly that stem
      and that suffix. */
  lemma NamedParts(p: string, stem: string, ext: string)
    requires stem != [] && forall k :: 0 <= k < |stem| ==> stem[k] != '/'
    requires IsSuffixForm(ext)
    requires Name(p) == stem + ext
    ensures Stem(p) == stem && Suffix(p) == ext
  {
    var n := stem + ext;
    StemSuffixOfName(stem, ext);
    assert 0 < |stem| < |n| - 1;
    assert n[..|stem|] == stem && n[|stem|..] == ext;
  }

  /** Lower-casing keeps the suffix form: it changes neither dots nor separators. */
  lemma LowerSuffixForm(x: string)
    requires IsSuffixForm(x)
    ensures IsSuffixForm(Lower(x))
  {
  }
}
