/**
 * The file names the converter derives for one annotation file `f`, found by
 * globbing the `annotations` directory for `.txt` files: the image it
 * measures, `dir/images/<name>` with its suffix changed to `.jpg`, and the
 * label file it writes, `str(f)`
 * with `<sep>annotations<sep>` replaced by `<sep>labels<sep>`. `sep` is the
 * platform's path separator (`os.sep`).
 */
module Paths {
  import opened PyStr

  /** `str(f)` for the annotation file `name` under `dir`. */
  function AnnotationPath(dir: string, sep: char, name: string): string
  {
    dir + [sep] + "annotations" + [sep] + name
  }

  // ---------------------------------------------------------------------
  // PurePath.suffix and PurePath.with_suffix on the last path component

  /**
   * `PurePath(name).suffix`: from the last dot to the end, unless that dot is
   * the first or the last character of the name.
   */
  function Suffix(name: string): (suffix: string)
    ensures suffix == "" ||
      (2 <= |suffix| < |name| && suffix[0] == '.' && '.' !in suffix[1..] &&
       name[|name| - |suffix|..] == suffix)
  {
    var i := RFind(name, '.');
    if 0 < i < |name| - 1 then name[i..] else ""
  }

  /** A suffix that `with_suffix` accepts and that `suffix` reads back: a dot, then at least one dot-free character. */
  predicate ProperSuffix(suffix: string)
  {
    |suffix| >= 2 && suffix[0] == '.' && '.' !in suffix[1..]
  }

  /** `PurePath(name).with_suffix(suffix)`: the old suffix, if any, is replaced. */
  function WithSuffix(name: string, suffix: string): string
  {
    var current := Suffix(name);
    name[..|name| - |current|] + suffix
  }

  lemma RFindIs(s: string, c: char, i: int)
    requires 0 <= i < |s| && s[i] == c
    requires forall j :: i < j < |s| ==> s[j] != c
    ensures RFind(s, c) == i
  {
    var k := RFind(s, c);
    assert !(k < i);
  }

  /** The suffix of `stem + "." + ext` is `"." + ext` when the stem is not empty and `ext` has no dot. */
  lemma SuffixOfExtension(stem: string, ext: string)
    requires |stem| > 0 && |ext| > 0 && '.' !in ext
    ensures Suffix(stem + "." + ext) == "." + ext
    ensures WithSuffix(stem + "." + ext, ".jpg") == stem + ".jpg"
  {
    var name := stem + "." + ext;
    assert RFind(name, '.') == |stem| by {
      assert forall j :: |stem| < j < |name| ==> name[j] == ext[j - |stem| - 1];
      RFindIs(name, '.', |stem|);
    }
    assert name[|stem|..] == "." + ext;
    assert name[..|stem|] == stem;
  }

  /** After `with_suffix(s)` on a non-empty name, the suffix is `s`. */
  lemma SuffixOfWithSuffix(name: string, suffix: string)
    requires |name| > 0 && ProperSuffix(suffix)
    ensures Suffix(WithSuffix(name, suffix)) == suffix
  {
    var stem := name[..|name| - |Suffix(name)|];
    assert |stem| > 0;
    var r := stem + suffix;
    assert r == WithSuffix(name, suffix);
    assert forall j :: |stem| < j < |r| ==> r[j] == suffix[1..][j - |stem| - 1];
    RFindIs(r, '.', |stem|);
    assert r[|stem|..] == suffix;
  }

  // ---------------------------------------------------------------------
  // The image and label paths

  /** `(dir / 'images' / f.name).with_suffix('.jpg')`. */
  function ImagePath(dir: string, sep: char, name: string): string
  {
    dir + [sep] + "images" + [sep] + WithSuffix(name, ".jpg")
  }

  /** The image of annotation file `<stem>.txt` is `dir/images/<stem>.jpg`. */
  lemma ImagePathOfTxt(dir: string, sep: char, stem: string)
    requires |stem| > 0
    ensures ImagePath(dir, sep, stem + ".txt") == dir + [sep] + "images" + [sep] + stem + ".jpg"
  {
    assert stem + ".txt" == stem + "." + "txt";
    SuffixOfExtension(stem, "txt");
  }

  /** A file named just `.txt` has no suffix, so `.jpg` is appended to the whole name. */
  lemma ImagePathOfHiddenTxt(dir: string, sep: char)
    ensures ImagePath(dir, sep, ".txt") == dir + [sep] + "images" + [sep] + ".txt.jpg"
  {
    RFindIs(".txt", '.', 0);
  }

  function AnnotationsSegment(sep: char): string { [sep] + "annotations" + [sep] }

  function LabelsSegment(sep: char): string { [sep] + "labels" + [sep] }

  /** `str(f).replace(f'{sep}annotations{sep}', f'{sep}labels{sep}')`. */
  function LabelPath(path: string, sep: char): string
  {
    Replace(path, AnnotationsSegment(sep), LabelsSegment(sep))
  }

  /** A path without `<sep>annotations<sep>` is its own label path. */
  lemma LabelPathUnchanged(path: string, sep: char)
    requires NoOccurrence(AnnotationsSegment(sep), path)
    ensures LabelPath(path, sep) == path
  {
    ReplaceNoOccurrence(path, AnnotationsSegment(sep), LabelsSegment(sep));
  }

  /**
   * When the directory contributes no `<sep>annotations<sep>` of its own,
   * the label file of `dir/annotations/<name>` is `dir/labels/<name>`.
   */
  lemma LabelPathOfAnnotationPath(dir: string, sep: char, name: string)
    requires sep !in name
    requires NoOccurrence(AnnotationsSegment(sep), dir + [sep] + "annotations")
    ensures LabelPath(AnnotationPath(dir, sep, name), sep) == dir + LabelsSegment(sep) + name
  {
    var pat := AnnotationsSegment(sep);
    assert pat[..|pat| - 1] == [sep] + "annotations";
    assert AnnotationPath(dir, sep, name) == dir + pat + name;
    assert dir + pat[..|pat| - 1] == dir + [sep] + "annotations";
    ReplaceFirstOccurrence(dir, pat, name, LabelsSegment(sep));
    NoOccurrenceByFirstChar(pat, name);
    ReplaceNoOccurrence(name, pat, LabelsSegment(sep));
  }

  /**
   * A directory that itself ends in `annotations` has its own segment
   * rewritten instead: the match is the leftmost one, and the two
   * occurrences overlap in their shared separator, so the label path becomes
   * `<parent>/labels/annotations/<name>`. That directory is not the one the
   * converter creates (`<parent>/annotations/labels`), so in the script the
   * write to this path fails unless the directory already exists.
   */
  lemma LabelPathOfNestedAnnotations(parent: string, sep: char, name: string)
    requires sep !in name && sep !in "annotations"
    requires NoOccurrence(AnnotationsSegment(sep), parent + [sep] + "annotations")
    ensures LabelPath(AnnotationPath(parent + [sep] + "annotations", sep, name), sep)
         == parent + LabelsSegment(sep) + "annotations" + [sep] + name
  {
    var pat := AnnotationsSegment(sep);
    var rest := "annotations" + [sep] + name;
    assert AnnotationPath(parent + [sep] + "annotations", sep, name) == parent + pat + rest;
    assert parent + pat[..|pat| - 1] == parent + [sep] + "annotations";
    ReplaceFirstOccurrence(parent, pat, rest, LabelsSegment(sep));
    forall i ensures !OccursAt(pat, rest, i) {
      if 0 <= i && i + |pat| <= |rest| {
        var window := rest[i..i + |pat|];
        if i < 11 {
          assert window[0] == "annotations"[i];
        } else if i == 11 {
          assert window[12] == name[11];
        } else {
          assert window[0] == name[i - 12];
        }
      }
    }
    ReplaceNoOccurrence(rest, pat, LabelsSegment(sep));
    assert parent + LabelsSegment(sep) + rest == parent + LabelsSegment(sep) + "annotations" + [sep] + name;
  }
}
