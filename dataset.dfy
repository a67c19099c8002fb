/**
 * The outer loop of `visdrone2yolo(dir)`: for each annotation file, look up
 * the size of its image, convert its rows and write the label lines to its
 * label path. Any exception propagates and ends the run, so the label files
 * of the files handled before it stay written and the files after it are
 * never converted. Reading and writing files are modelled as values: the
 * lines of each annotation file are an input, the written label files the
 * output.
 */
module Dataset {
  import opened Wrappers
  import opened PyStr
  import opened BoxConvert
  import opened Paths
  import opened Labels

  /** An annotation file from the glob: its name and `file.read().strip().splitlines()`. */
  datatype AnnotationFile = AnnotationFile(name: string, lines: seq<string>)

  /** A label file written by `fl.writelines(lines)`. */
  datatype LabelFile = LabelFile(path: string, text: string)

  /** The label files written, in order, and the exception that ended the run, if any. */
  datatype Run = Run(written: seq<LabelFile>, failure: Option<Error>)

  /** `writelines`: the lines one after the other, with nothing added. */
  function Concat(lines: seq<string>): string
    decreases |lines|
  {
    if lines == [] then "" else lines[0] + Concat(lines[1..])
  }

  /**
   * One iteration of the outer loop. `images` maps the image paths that exist
   * to their sizes; a path it lacks makes `Image.open` raise. Opening the
   * label path for writing is taken to succeed.
   */
  function ConvertFile(dir: string, sep: char, images: map<string, ImageSize>, f: AnnotationFile,
                       fmt: real -> string): Result<LabelFile, Error>
  {
    var imagePath := ImagePath(dir, sep, f.name);
    if imagePath !in images then Err(FileNotFound(imagePath))
    else
      var converted := ConvertRows(images[imagePath], Rows(f.lines), fmt);
      if converted.Err? then Err(converted.error)
      else Ok(LabelFile(LabelPath(AnnotationPath(dir, sep, f.name), sep), Concat(converted.value)))
  }

  /** The outcome of each annotation file, in glob order. */
  function FileOutcomes(dir: string, sep: char, images: map<string, ImageSize>, files: seq<AnnotationFile>,
                        fmt: real -> string): seq<Result<LabelFile, Error>>
  {
    seq(|files|, k requires 0 <= k < |files| => ConvertFile(dir, sep, images, files[k], fmt))
  }

  /** The run that writes the label files of the outcomes in order and stops at the first exception. */
  function RunOf(outs: seq<Result<LabelFile, Error>>): Run
    decreases |outs|
  {
    if outs == [] then Run([], None)
    else if outs[0].Err? then Run([], Some(outs[0].error))
    else Prepend([outs[0].value], RunOf(outs[1..]))
  }

  /** The whole run over the files in glob order. */
  function ConvertAll(dir: string, sep: char, images: map<string, ImageSize>, files: seq<AnnotationFile>,
                      fmt: real -> string): Run
  {
    RunOf(FileOutcomes(dir, sep, images, files, fmt))
  }

  /** The label files of the first `n` outcomes, none of which is an exception. */
  function Values(outs: seq<Result<LabelFile, Error>>, n: nat): seq<LabelFile>
    requires n <= |outs|
    requires forall k :: 0 <= k < n ==> outs[k].Ok?
  {
    seq(n, k requires 0 <= k < n => outs[k].value)
  }

  lemma {:induction false} RunOfOutcome(outs: seq<Result<LabelFile, Error>>, n: nat)
    requires n <= |outs|
    requires forall k :: 0 <= k < n ==> outs[k].Ok?
    requires n < |outs| ==> outs[n].Err?
    ensures n == |outs| ==> RunOf(outs) == Run(Values(outs, n), None)
    ensures n < |outs| ==> RunOf(outs) == Run(Values(outs, n), Some(outs[n].error))
    decreases n
  {
    if n == 0 {
      assert Values(outs, 0) == [];
    } else {
      var tail := outs[1..];
      forall k | 0 <= k < n - 1 ensures tail[k].Ok? {
        assert tail[k] == outs[k + 1];
      }
      if n < |outs| { assert tail[n - 1] == outs[n]; }
      RunOfOutcome(tail, n - 1);
      assert Values(outs, n) == [outs[0].value] + Values(tail, n - 1);
    }
  }

  /** The label files of the first `n` files, all of which convert. */
  function WrittenBefore(dir: string, sep: char, images: map<string, ImageSize>, files: seq<AnnotationFile>,
                         fmt: real -> string, n: nat): seq<LabelFile>
    requires n <= |files|
    requires forall k :: 0 <= k < n ==> ConvertFile(dir, sep, images, files[k], fmt).Ok?
  {
    seq(n, k requires 0 <= k < n => ConvertFile(dir, sep, images, files[k], fmt).value)
  }

  /**
   * A run either converts every file, writing one label file per annotation
   * file in order, or stops at the first file that raises, having written
   * exactly the label files of the files before it.
   */
  lemma ConvertAllOutcome(dir: string, sep: char, images: map<string, ImageSize>,
                          files: seq<AnnotationFile>, fmt: real -> string, n: nat)
    requires n <= |files|
    requires forall k :: 0 <= k < n ==> ConvertFile(dir, sep, images, files[k], fmt).Ok?
    requires n < |files| ==> ConvertFile(dir, sep, images, files[n], fmt).Err?
    ensures n == |files| ==>
      ConvertAll(dir, sep, images, files, fmt) == Run(WrittenBefore(dir, sep, images, files, fmt, n), None)
    ensures n < |files| ==>
      ConvertAll(dir, sep, images, files, fmt) ==
        Run(WrittenBefore(dir, sep, images, files, fmt, n), Some(ConvertFile(dir, sep, images, files[n], fmt).error))
  {
    var outs := FileOutcomes(dir, sep, images, files, fmt);
    RunOfOutcome(outs, n);
    assert WrittenBefore(dir, sep, images, files, fmt, n) == Values(outs, n);
  }

  /**
   * The label file of an annotation file `<stem>.txt` whose image exists and
   * whose rows all parse: it goes to `dir/labels/<stem>.txt` and holds the
   * label lines of the kept rows, in order.
   */
  lemma ConvertFileOk(dir: string, sep: char, images: map<string, ImageSize>, stem: string,
                      lines: seq<string>, fmt: real -> string)
    requires |stem| > 0 && sep !in stem + ".txt"
    requires NoOccurrence(AnnotationsSegment(sep), dir + [sep] + "annotations")
    requires dir + [sep] + "images" + [sep] + stem + ".jpg" in images
    requires AllRowsParse(Rows(lines))
    ensures ConvertFile(dir, sep, images, AnnotationFile(stem + ".txt", lines), fmt) ==
      Ok(LabelFile(dir + LabelsSegment(sep) + stem + ".txt",
                   Concat(RenderAll(images[dir + [sep] + "images" + [sep] + stem + ".jpg"],
                                    KeptRecords(Rows(lines)), fmt))))
  {
    var name := stem + ".txt";
    ImagePathOfTxt(dir, sep, stem);
    LabelPathOfAnnotationPath(dir, sep, name);
    var size := images[ImagePath(dir, sep, name)];
    ConvertRowsIsFilterMap(size, Rows(lines), fmt);
    assert dir + LabelsSegment(sep) + name == dir + LabelsSegment(sep) + stem + ".txt";
  }

  /**
   * The failure half of one file: a missing image raises `FileNotFound` for
   * its path; with the image present, the file raises exactly when one of
   * its rows does, and it raises that row loop's exception.
   */
  lemma ConvertFileFails(dir: string, sep: char, images: map<string, ImageSize>, f: AnnotationFile,
                         fmt: real -> string)
    ensures ImagePath(dir, sep, f.name) !in images ==>
      ConvertFile(dir, sep, images, f, fmt) == Err(FileNotFound(ImagePath(dir, sep, f.name)))
    ensures ImagePath(dir, sep, f.name) in images ==>
      (ConvertFile(dir, sep, images, f, fmt).Err? <==> !AllRowsParse(Rows(f.lines)))
    ensures ImagePath(dir, sep, f.name) in images && !AllRowsParse(Rows(f.lines)) ==>
      ConvertFile(dir, sep, images, f, fmt) ==
        Err(ConvertRows(images[ImagePath(dir, sep, f.name)], Rows(f.lines), fmt).error)
  {
    if ImagePath(dir, sep, f.name) in images {
      ConvertRowsOkIff(images[ImagePath(dir, sep, f.name)], Rows(f.lines), fmt);
    }
  }

  /** The run that first writes `ws` and then goes on as `run`. */
  function Prepend(ws: seq<LabelFile>, run: Run): Run
  {
    Run(ws + run.written, run.failure)
  }

  /** One step of the outer loop, on the outcomes from index `i` on. */
  lemma RunOfStep(outs: seq<Result<LabelFile, Error>>, i: nat, ws: seq<LabelFile>)
    requires i < |outs|
    ensures outs[i].Err? ==> Prepend(ws, RunOf(outs[i..])) == Run(ws, Some(outs[i].error))
    ensures outs[i].Ok? ==> Prepend(ws, RunOf(outs[i..])) == Prepend(ws + [outs[i].value], RunOf(outs[i + 1..]))
  {
    assert outs[i..][0] == outs[i] && outs[i..][1..] == outs[i + 1..];
    assert ws + [] == ws;
    if outs[i].Ok? {
      var rest := RunOf(outs[i + 1..]);
      assert ws + ([outs[i].value] + rest.written) == (ws + [outs[i].value]) + rest.written;
    }
  }

  /** The outer loop; it returns at the first exception, when nothing more is written. */
  method VisDrone2Yolo(dir: string, sep: char, images: map<string, ImageSize>, files: seq<AnnotationFile>,
                       fmt: real -> string) returns (run: Run)
    ensures run == ConvertAll(dir, sep, images, files, fmt)
  {
    ghost var outs := FileOutcomes(dir, sep, images, files, fmt);
    var written: seq<LabelFile> := [];
    assert outs[0..] == outs;
    assert Prepend([], RunOf(outs)) == RunOf(outs);
    for i := 0 to |files|
      invariant ConvertAll(dir, sep, images, files, fmt) == Prepend(written, RunOf(outs[i..]))
    {
      var f := files[i];
      assert outs[i] == ConvertFile(dir, sep, images, f, fmt);
      RunOfStep(outs, i, written);
      var imagePath := ImagePath(dir, sep, f.name);
      if imagePath !in images {
        return Run(written, Some(FileNotFound(imagePath)));
      }
      var size := images[imagePath];
      var converted := ConvertAnnotation(size, f.lines, fmt);
      if converted.Err? {
        return Run(written, Some(converted.error));
      }
      var labelPath := LabelPath(AnnotationPath(dir, sep, f.name), sep);
      written := written + [LabelFile(labelPath, Concat(converted.value))];
    }
    assert outs[|files|..] == [];
    assert written + [] == written;
    return Run(written, None);
  }
}
