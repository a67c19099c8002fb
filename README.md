# VisDrone to YOLO label conversion, modelled in Dafny

This project models `demo/visdrone2yolo.py`. The script rewrites VisDrone
detection annotations as YOLO label files. A VisDrone annotation file has one
comma-separated row per object: `left, top, width, height, score, category, …`,
in pixels. For every annotation file in `<dir>/annotations`, the script does
four things:

- It reads the size of the matching image `<dir>/images/<stem>.jpg`, for the annotation file `<stem>.txt`.
- It drops the rows whose fifth field is `"0"`. These are ignored regions.
- It turns every other row into a YOLO line: the class `category - 1`, then
  the box centre and extent divided by the image size, each printed to six
  decimals.
- It writes those lines to the path of the annotation file, with
  `<sep>annotations<sep>` replaced by `<sep>labels<sep>`.

The model is split into modules:

- `Wrappers`: `Option` and `Result`.
- `PyStr`: the Python string operations the script relies on. These are
  `str.split`, `str.join`, `str.rfind`, `str.replace`, `int()` on a decimal
  string and `str()` of an integer.
- `BoxConvert`: `convert_box` over exact reals, with its inverse. It proves
  two round trips and that a box inside the image maps into the unit square,
  and the converse.
- `Paths`: the annotation path, the image path (`PurePath.suffix` and
  `with_suffix`) and the label path (the leftmost, non-overlapping replace).
- `Labels`:
  - what one row does, as `Classify`: ignored, kept as a record, or the
    exception it raises;
  - the label line format;
  - the per-file loop, as the method `ConvertAnnotation`. It is proved
    equal to the specification function `ConvertRows`, and that function is
    proved to be a filter followed by a map, to keep order, and to stop at
    the first row that raises.
- `Dataset`: the loop over annotation files, as the method `VisDrone2Yolo`,
  proved equal to `ConvertAll`.
- `WorkedRows`: single rows for a 1000 x 800 image, worked out completely.

Python exceptions are modelled as `Err` values (`IndexError`, `ValueError`,
`FileNotFound`), not as preconditions. The script does not catch them, so one
exception ends the whole run. The label files written before it stay on disk,
and the annotation files after it are never read. `Dataset.Run` records
exactly that: the label files written, then the exception.

Three kinds of input become parameters of the model:

- the file system: the lines of each annotation file, and a map from the
  image paths that exist to their sizes;
- the platform separator `os.sep`;
- the `:.6f` number formatting: `fmt: real -> string`.

A row whose fifth field is `0` is dropped even when its other fields are
valid (`WorkedRows.IgnoredRegionRow`). With score `1`, the same row
`100,200,50,40,1,3` gives class 2 and the box (0.125, 0.275, 0.05, 0.05) for
a 1000 x 800 image (`WorkedRows.KeptRow`).

The script catches no exception, so a bad row or a missing image ends the
whole run, not just the conversion of that file.

## Model

| member | source | states |
|---|---|---|
| BoxConvert.ConvertBox | demo/visdrone2yolo.py:8-16 | Scaled back by the image width or height, each output is what it denotes: the widths are the pixel width and height, and the centres are `left + width/2` and `top + height/2`. |
| BoxConvert.ToPixels | demo/visdrone2yolo.py:8-16 | The inverse of `convert_box`, which the script does not compute itself. It has no ensures of its own; it is characterised by `BoxConvert.ToPixelsOfConvertBox` and `BoxConvert.ConvertBoxOfToPixels`. |
| BoxConvert.ToPixelsOfConvertBox | demo/visdrone2yolo.py:8-16 | Converting a pixel box and mapping it back to pixels returns the same box. |
| BoxConvert.ConvertBoxOfToPixels | demo/visdrone2yolo.py:8-16 | Converting the pixel box of a YOLO box returns that YOLO box, so the conversion is a bijection for every positive image size. |
| BoxConvert.ConvertBoxEdges | demo/visdrone2yolo.py:12-15 | The left, right, top and bottom edges of the output, scaled back, are the pixel edges `left`, `left+width`, `top` and `top+height`. |
| BoxConvert.InsideImageIff | demo/visdrone2yolo.py:8-16 | A pixel box lies inside the W x H image exactly when its YOLO box has non-negative extent and all its edges are in [0, 1]. |
| BoxConvert.ConvertBoxBounds | demo/visdrone2yolo.py:8-16 | For a box inside the image, all four outputs lie in [0, 1]. |
| PyStr.Split | demo/visdrone2yolo.py:28 | `split(',')` gives at least one field, and no field contains the separator. |
| PyStr.Join | demo/visdrone2yolo.py:34 | `' '.join(...)` of the four formatted numbers. It is characterised by `PyStr.JoinSplit` and `PyStr.SplitJoin`, and through `Labels.FormatLineFields`. |
| PyStr.JoinSplit | demo/visdrone2yolo.py:28 | Joining the fields of a split with the separator gives the line back, so splitting loses nothing. |
| PyStr.SplitJoin | demo/visdrone2yolo.py:28 | Splitting a join of separator-free fields gives exactly those fields. |
| PyStr.RFind | demo/visdrone2yolo.py:24 | The index is -1 or a position of the character, and no occurrence lies after it. |
| PyStr.Replace | demo/visdrone2yolo.py:37 | `str.replace`, leftmost and non-overlapping. It is characterised by `PyStr.ReplaceNoOccurrence` and `PyStr.ReplaceFirstOccurrence`. |
| PyStr.ReplaceNoOccurrence | demo/visdrone2yolo.py:37 | `str.replace` leaves a text without an occurrence of the pattern unchanged. |
| PyStr.ReplaceFirstOccurrence | demo/visdrone2yolo.py:37 | When the pattern first occurs after the prefix `a`, the replacement is `a + rep`, followed by the replace of what comes after that occurrence. |
| PyStr.ParseInt | demo/visdrone2yolo.py:31-32 | `int(text)` on an optional sign and ASCII digits, `None` where Python raises. It is characterised by `PyStr.ParseIntOfIntToString` and the worked rows `WorkedRows.DoubleZeroScoreIsKept` and `WorkedRows.NonIntegerFieldRaises`. |
| PyStr.IntToString | demo/visdrone2yolo.py:34 | `str(cls)` in the f-string. It is characterised by `PyStr.NatToString`, `PyStr.ParseIntOfIntToString` and `PyStr.IntToStringHasNoBlank`. |
| PyStr.NatToString | demo/visdrone2yolo.py:34 | The rendering of a natural number is non-empty, is all decimal digits and has no leading zero. |
| PyStr.ParseIntOfIntToString | demo/visdrone2yolo.py:31-34 | `int(str(n)) == n` for every integer, negative ones included: the printed class reads back as itself. |
| PyStr.IntToStringHasNoBlank | demo/visdrone2yolo.py:34 | A printed integer contains no space and no newline, so the class is one token of the line. |
| Paths.Suffix | demo/visdrone2yolo.py:24 | The suffix is empty, or it is a final part of the name, shorter than the name, starting with its only dot and at least two characters long. |
| Paths.AnnotationPath | demo/visdrone2yolo.py:22 | `str(f)` for a file `<name>` found in `dir/annotations`. It is characterised by `Paths.LabelPathOfAnnotationPath` and `Paths.LabelPathOfNestedAnnotations`. |
| Paths.WithSuffix | demo/visdrone2yolo.py:24 | `PurePath.with_suffix`: the old suffix, if any, replaced. It is characterised by `Paths.SuffixOfExtension` and `Paths.SuffixOfWithSuffix`. |
| Paths.ImagePath | demo/visdrone2yolo.py:24 | `(dir / 'images' / f.name).with_suffix('.jpg')`. It is characterised by `Paths.ImagePathOfTxt` and `Paths.ImagePathOfHiddenTxt`. |
| Paths.LabelPath | demo/visdrone2yolo.py:37 | The replace of `<sep>annotations<sep>` by `<sep>labels<sep>` in `str(f)`. It is characterised by `Paths.LabelPathUnchanged`, `Paths.LabelPathOfAnnotationPath` and `Paths.LabelPathOfNestedAnnotations`. |
| Paths.SuffixOfExtension | demo/visdrone2yolo.py:24 | For a non-empty stem and a dot-free extension, the suffix of `stem.ext` is `.ext` and `with_suffix('.jpg')` gives `stem.jpg`. |
| Paths.SuffixOfWithSuffix | demo/visdrone2yolo.py:24 | After `with_suffix(s)` on a non-empty name, the suffix is `s`. |
| Paths.ImagePathOfTxt | demo/visdrone2yolo.py:24 | The image of `<stem>.txt` is `dir/images/<stem>.jpg`. |
| Paths.ImagePathOfHiddenTxt | demo/visdrone2yolo.py:24 | A file named just `.txt` has no suffix, so its image is `dir/images/.txt.jpg`. |
| Paths.LabelPathUnchanged | demo/visdrone2yolo.py:37 | A path without `<sep>annotations<sep>` is its own label path. Every `AnnotationPath` of the model contains that segment, so this case arises only for paths that pathlib normalises (such as `Path('.') / 'annotations' / 'x.txt'`, printed `annotations/x.txt`); there the script would overwrite the annotation file. Path normalisation is left out. |
| Paths.LabelPathOfAnnotationPath | demo/visdrone2yolo.py:37 | When the directory contributes no `<sep>annotations<sep>`, the label file of `dir/annotations/<name>` is `dir/labels/<name>`. |
| Paths.LabelPathOfNestedAnnotations | demo/visdrone2yolo.py:37 | When the directory itself ends in `annotations`, only that leftmost segment is rewritten: `<parent>/labels/annotations/<name>`. |
| Labels.ParseInts | demo/visdrone2yolo.py:32 | `tuple(map(int, row[:4]))`: on success, one value per field. The rest is characterised by `Labels.ParseIntsCases`. |
| Labels.ParseIntsCases | demo/visdrone2yolo.py:32 | `map(int, row[:4])` either gives one value per field, each the parse of its field, or raises `ValueError` on the first field that is not an integer. |
| Labels.Classify | demo/visdrone2yolo.py:29-32 | What one row does: ignored, kept as a record, or the exception it raises, in the order the script looks at the fields. It is characterised by `Labels.ClassifyCases`. |
| Labels.Rows | demo/visdrone2yolo.py:28 | `[x.split(',') for x in lines]`: one field list per line, in order. It is characterised by `PyStr.Split`, `PyStr.JoinSplit` and `PyStr.SplitJoin`, and `Labels.ConvertAnnotation` states its result on it. |
| Labels.ClassifyCases | demo/visdrone2yolo.py:29-32 | A row is ignored exactly when its fifth field is the text `"0"`. A kept row has class `int(row[5]) - 1` and box `int(row[0..3])`. A row with four fields or fewer raises `IndexError(4)`. A non-ignored row with five fields raises `IndexError(5)`. Otherwise it raises exactly when the category or a box field is not an integer. The category is parsed first: when it is not an integer, the row raises `ValueError` for it; otherwise a bad box field raises the exception `Labels.ParseIntsCases` gives, `ValueError` for the first such field. |
| Labels.FormatLine | demo/visdrone2yolo.py:34 | The f-string of one label line, with `fmt` for `:.6f`. It is characterised by `Labels.FormatLineFields`. |
| Labels.RecordLine | demo/visdrone2yolo.py:33-34 | `convert_box` of a kept record with the image size, then the f-string. It is characterised by `BoxConvert.ConvertBox` and `Labels.FormatLineFields`, and `Labels.ConvertRowsIsFilterMap` maps it over the kept records. |
| Labels.FormatLineFields | demo/visdrone2yolo.py:34 | A label line ends in its only newline. Before it, the line splits at single spaces into exactly the class and the four formatted numbers, and the first token parses back to the class. |
| Labels.ConvertRows | demo/visdrone2yolo.py:26-34 | The lines the row loop builds for one file, or the first row's exception. It is characterised by the `Labels.ConvertRows…` and `Labels.KeptRecord…` lemmas below, and `Labels.ConvertAnnotation` is proved equal to it. |
| Labels.ConvertRowsIsFilterMap | demo/visdrone2yolo.py:26-34 | When no row raises, the output is the line format mapped over the records of the kept rows, in row order. |
| Labels.ConvertRowsOkIff | demo/visdrone2yolo.py:28-34 | A file converts without an exception exactly when none of its rows raises. |
| Labels.ConvertRowsFirstError | demo/visdrone2yolo.py:28-34 | The exception raised is the one of the first row that raises. |
| Labels.ConvertRowsSkipsIgnored | demo/visdrone2yolo.py:29-30 | Inserting an ignored row anywhere changes neither the outcome nor the kept records. |
| Labels.KeptRecordsAppend | demo/visdrone2yolo.py:26-34 | The records kept from two consecutive runs of rows are those kept from the first, followed by those kept from the second. |
| Labels.KeptRecordAt | demo/visdrone2yolo.py:26-34 | A kept row's record is in the output, at the position given by the number of kept rows before it: one output per kept row, in order. |
| Labels.OutputIndexOrdered | demo/visdrone2yolo.py:26-34 | A kept row comes out before every later row's output position: the relative order of kept rows is preserved. |
| Labels.KeptRecordsFromRows | demo/visdrone2yolo.py:26-34 | Every output record comes from a kept row, at that row's output position, so nothing is invented. |
| Labels.ConvertAnnotation | demo/visdrone2yolo.py:26-34 | The loop over the lines of one file returns what `ConvertRows` specifies: the kept rows' lines in order, or the first row's exception. |
| Dataset.Concat | demo/visdrone2yolo.py:38-39 | `fl.writelines(lines)`: the lines one after the other, with nothing added. It is used by `Dataset.ConvertFileOk`. |
| Dataset.ConvertFile | demo/visdrone2yolo.py:23-39 | One iteration of the outer loop: the image lookup, the row loop and the label file. It is characterised by `Dataset.ConvertFileOk` (success) and `Dataset.ConvertFileFails` (failure). |
| Dataset.ConvertAll | demo/visdrone2yolo.py:20-39 | The whole run over the files in glob order. It is characterised by `Dataset.ConvertAllOutcome`, and `Dataset.VisDrone2Yolo` is proved equal to it. |
| Dataset.ConvertAllOutcome | demo/visdrone2yolo.py:22-39 | A run either converts every file and writes one label file per annotation file, in order, or stops at the first file that raises, having written exactly the label files of the files before it. |
| Dataset.ConvertFileFails | demo/visdrone2yolo.py:24-34 | A missing image raises `FileNotFound` for the image path (line 25). With the image present, the file raises exactly when one of its rows raises, and it raises the row loop's exception, which `Labels.ConvertRowsFirstError` identifies as that of the first raising row. |
| Dataset.ConvertFileOk | demo/visdrone2yolo.py:23-39 | For `<stem>.txt` with its image present and every row parsing, when the directory contributes no `<sep>annotations<sep>` and the stem holds no separator, the file written is `dir/labels/<stem>.txt`. It holds the concatenated lines of the kept records, in order. |
| Dataset.VisDrone2Yolo | demo/visdrone2yolo.py:20-39 | The loop over annotation files produces the run that `ConvertAll` specifies. |
| WorkedRows.IgnoredRegionRow | demo/visdrone2yolo.py:28-30 | The row split into the fields `100`, `200`, `50`, `40`, `0`, `3` produces no label line. |
| WorkedRows.KeptRow | demo/visdrone2yolo.py:28-34 | For a 1000 x 800 image, the row split into the fields `100`, `200`, `50`, `40`, `1`, `3` produces exactly one line: class 2 and the box (0.125, 0.275, 0.05, 0.05). |
| WorkedRows.DoubleZeroScoreIsKept | demo/visdrone2yolo.py:29-32 | A score written `"00"` is not the text `"0"`, so the row is kept as class 2 with its box. |
| WorkedRows.ShortRowRaises | demo/visdrone2yolo.py:29-31 | The four-field row `1,2,3,4` raises `IndexError` at index 4, and the five-field row `1,2,3,4,1` raises at index 5. The general case is `Labels.ClassifyCases`. |
| WorkedRows.NonIntegerFieldRaises | demo/visdrone2yolo.py:32 | A box field `x` raises `ValueError` naming that text. |

## Left out

- Creating the `labels` directory, the glob over `annotations` and the tqdm progress bar. The model takes the annotation files as a sequence in glob order.
- Reading and writing files. The stripped lines of each annotation file are an input. A written label file is a value in the result. Writing to an existing path is not modelled. Newline translation in text mode is not modelled: on Windows, `open(label_path, 'w')` writes each `\n` as `\r\n`, and the model's label text is what is passed to `writelines`, not the bytes on disk.
- `Dataset.ConvertFile`: opening the label path for writing is assumed to succeed. Line 21 creates only `dir/labels`, so when the label path's directory is another one and does not exist (the nested-`annotations` case of `Paths.LabelPathOfNestedAnnotations`, whose label path lies in `<parent>/labels/annotations`), the script raises `FileNotFoundError` and stops, while the model records the file as written and goes on.
- `file.read().strip().splitlines()`. The model starts from its result; the line-ending rules of `splitlines` are not modelled.
- `WorkedRows`: the worked rows are stated on the fields that `split(',')` returns, not on the text of the line. `PyStr.JoinSplit` and `PyStr.SplitJoin` connect the two for every line.
- `Labels.FormatLine`: `:.6f` rounding and rendering is the parameter `fmt`. So the model proves the line's structure, the class and the exact real inputs to the formatter, but not the six-decimal text. `Labels.FormatLineFields` holds only when `fmt` emits no space and no newline (its `IsToken` precondition), which `:.6f` does not, but the model does not prove it.
- `PyStr.ParseInt`: accepts an optional sign followed by ASCII digits. It does not model the forms Python's `int()` also accepts: surrounding whitespace, `_` between digits, and non-ASCII decimal digits. Nor does it model the `ValueError` Python's `int()` raises on a string of more than 4300 digits (CPython's default digit limit): the model parses such a field.
- `BoxConvert.ConvertBox`: computes over exact reals, not IEEE doubles. So the model has no rounding, and the round trips are exact. Nor does it model the `OverflowError` that line 12 raises when an integer field is beyond the range of a float (about 1.8e308): the model converts such a box.
- Decoding the image with PIL. A missing image path raises `FileNotFound`. Other decoding errors are not modelled. The image size is a pair of positive integers.
- Path normalisation by `pathlib`. `dir` is taken as a string without a trailing separator, and the annotation path is `dir/annotations/<name>`.
- Lines 43-46: the module-level loop over the three dataset split directories under a fixed path. It is a script entry point that calls `visdrone2yolo` three times.
- The rest of the repository, other than `demo/visdrone2yolo.py`, is not part of this model.
