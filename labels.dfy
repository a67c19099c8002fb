/**
 * The per-file row transform of `visdrone2yolo`. Each line of an annotation
 * file is split at commas into a VisDrone record
 * `left,top,width,height,score,category,...`. A record whose score field is
 * exactly `"0"` (an ignored region) is dropped; every other record becomes
 * one YOLO label line `cls cx cy w h\n` with `cls = category - 1`, in input
 * order. A short row or a field that is not an integer raises, which aborts
 * the file.
 */
module Labels {
  import opened Wrappers
  import opened PyStr
  import opened BoxConvert

  /** The exceptions the converter can raise. */
  datatype Error =
    | IndexError(index: nat)     // `row[index]` on a row with too few fields
    | ValueError(text: string)   // `int(text)` on a field that is not an integer
    | FileNotFound(path: string) // `Image.open(path)` on a missing image

  /** Index of the VisDrone score field, which flags ignored regions. */
  const ScoreField: nat := 4
  /** Index of the one-based VisDrone object category. */
  const CategoryField: nat := 5
  /** The score text that marks an ignored region. */
  const IgnoredScore: string := "0"

  /** One surviving annotation: the zero-based class and the integer pixel box. */
  datatype Record = Record(cls: int, left: int, top: int, width: int, height: int)

  /** What one row contributes: nothing, or one record. */
  datatype RowOutcome = Ignored | Kept(record: Record)

  /** The pixel box of a record, as `convert_box` receives it. */
  function PixelBox(rec: Record): Box
  {
    Box(rec.left as real, rec.top as real, rec.width as real, rec.height as real)
  }

  /**
   * `tuple(map(int, fields))`: every field parsed, left to right; the first
   * field that is not an integer raises.
   */
  function ParseInts(fields: seq<string>): (r: Result<seq<int>, Error>)
    ensures r.Ok? ==> |r.value| == |fields|
    decreases |fields|
  {
    if fields == [] then Ok([])
    else match ParseInt(fields[0])
      case None => Err(ValueError(fields[0]))
      case Some(v) =>
        var rest := ParseInts(fields[1..]);
        if rest.Err? then rest else Ok([v] + rest.value)
  }

  /**
   * Parsing succeeds with the parse of each field, in order, or raises
   * `ValueError` naming the first field that is not an integer.
   */
  lemma {:induction false} ParseIntsCases(fields: seq<string>)
    ensures var r := ParseInts(fields);
      r.Ok? ==> forall k :: 0 <= k < |fields| ==> ParseInt(fields[k]) == Some(r.value[k])
    ensures var r := ParseInts(fields);
      r.Err? ==>
        exists k :: 0 <= k < |fields| && ParseInt(fields[k]).None? && r.error == ValueError(fields[k]) &&
          forall j :: 0 <= j < k ==> ParseInt(fields[j]).Some?
    decreases |fields|
  {
    if fields != [] && ParseInt(fields[0]).Some? {
      var tail := fields[1..];
      ParseIntsCases(tail);
      var rest := ParseInts(tail);
      if rest.Err? {
        var k :| 0 <= k < |tail| && ParseInt(tail[k]).None? && rest.error == ValueError(tail[k]) &&
          forall j :: 0 <= j < k ==> ParseInt(tail[j]).Some?;
        assert ParseInt(fields[k + 1]).None? && forall j :: 0 <= j < k + 1 ==> ParseInt(fields[j]).Some?;
      } else {
        forall k | 0 <= k < |fields| ensures ParseInt(fields[k]) == Some(ParseInts(fields).value[k]) {
          if k > 0 { assert fields[k] == tail[k - 1]; }
        }
      }
    }
  }

  /**
   * The loop body for one comma-split row: `row[4] == '0'` drops it,
   * otherwise `cls = int(row[5]) - 1` and the box is `map(int, row[:4])`.
   */
  function Classify(row: seq<string>): Result<RowOutcome, Error>
  {
    if |row| <= ScoreField then Err(IndexError(ScoreField))
    else if row[ScoreField] == IgnoredScore then Ok(Ignored)
    else if |row| <= CategoryField then Err(IndexError(CategoryField))
    else match ParseInt(row[CategoryField])
      case None => Err(ValueError(row[CategoryField]))
      case Some(category) =>
        match ParseInts(row[..4])
        case Err(e) => Err(e)
        case Ok(c) => Ok(Kept(Record(category - 1, c[0], c[1], c[2], c[3])))
  }

  /**
   * A row is ignored exactly when its fifth field is the text `"0"`; a kept
   * row's class is its sixth field minus one and its box is its first four
   * fields; a row raises `IndexError` when a field it needs is missing and
   * `ValueError` when a field it parses is not an integer, the category
   * being parsed before the box.
   */
  lemma ClassifyCases(row: seq<string>)
    ensures Classify(row) == Ok(Ignored) <==> |row| > ScoreField && row[ScoreField] == IgnoredScore
    ensures forall rec :: Classify(row) == Ok(Kept(rec)) ==>
      |row| > CategoryField && row[ScoreField] != IgnoredScore &&
      ParseInt(row[CategoryField]) == Some(rec.cls + 1) &&
      ParseInts(row[..4]) == Ok([rec.left, rec.top, rec.width, rec.height])
    ensures |row| <= ScoreField ==> Classify(row) == Err(IndexError(ScoreField))
    ensures ScoreField < |row| <= CategoryField && row[ScoreField] != IgnoredScore ==>
      Classify(row) == Err(IndexError(CategoryField))
    ensures |row| > CategoryField && row[ScoreField] != IgnoredScore ==>
      (Classify(row).Err? <==> ParseInt(row[CategoryField]).None? || ParseInts(row[..4]).Err?)
    ensures |row| > CategoryField && row[ScoreField] != IgnoredScore && ParseInt(row[CategoryField]).None? ==>
      Classify(row) == Err(ValueError(row[CategoryField]))
    ensures |row| > CategoryField && row[ScoreField] != IgnoredScore && ParseInt(row[CategoryField]).Some? &&
            ParseInts(row[..4]).Err? ==>
      Classify(row) == Err(ParseInts(row[..4]).error)
  {
    if |row| > CategoryField && row[ScoreField] != IgnoredScore {
      var parsed := ParseInts(row[..4]);
      if parsed.Ok? {
        var c := parsed.value;
        assert c == [c[0], c[1], c[2], c[3]];
      }
    }
  }

  /** `f"{cls} {' '.join(f'{x:.6f}' for x in yolo_box)}\n"`, with `fmt` standing for `:.6f`. */
  function FormatLine(cls: int, y: YoloBox, fmt: real -> string): string
  {
    IntToString(cls) + " " + Join([fmt(y.cx), fmt(y.cy), fmt(y.w), fmt(y.h)], ' ') + "\n"
  }

  /** The label line of a record: its box converted with the image size, then formatted. */
  function RecordLine(size: ImageSize, rec: Record, fmt: real -> string): string
  {
    FormatLine(rec.cls, ConvertBox(size, PixelBox(rec)), fmt)
  }

  /** A formatted number is a single token: no space and no newline in it. */
  predicate IsToken(s: string) { ' ' !in s && '\n' !in s }

  /**
   * A label line ends in its only newline, and the text before it splits at
   * single spaces into the class and the four formatted numbers; the first
   * token parses back to the class.
   */
  lemma FormatLineFields(cls: int, y: YoloBox, fmt: real -> string)
    requires IsToken(fmt(y.cx)) && IsToken(fmt(y.cy)) && IsToken(fmt(y.w)) && IsToken(fmt(y.h))
    ensures var line := FormatLine(cls, y, fmt);
      |line| > 0 && line[|line| - 1] == '\n' && '\n' !in line[..|line| - 1] &&
      Split(line[..|line| - 1], ' ') == [IntToString(cls), fmt(y.cx), fmt(y.cy), fmt(y.w), fmt(y.h)] &&
      ParseInt(Split(line[..|line| - 1], ' ')[0]) == Some(cls)
  {
    var tokens := [IntToString(cls), fmt(y.cx), fmt(y.cy), fmt(y.w), fmt(y.h)];
    IntToStringHasNoBlank(cls);
    ParseIntOfIntToString(cls);
    assert tokens[1..] == [fmt(y.cx), fmt(y.cy), fmt(y.w), fmt(y.h)];
    var body := Join(tokens, ' ');
    assert body == IntToString(cls) + " " + Join([fmt(y.cx), fmt(y.cy), fmt(y.w), fmt(y.h)], ' ');
    var line := FormatLine(cls, y, fmt);
    assert line == body + "\n";
    assert line[..|line| - 1] == body;
    assert forall k :: 0 <= k < |tokens| ==> ' ' !in tokens[k] && '\n' !in tokens[k];
    SplitJoin(tokens, ' ');
    JoinHasNoNewline(tokens);
  }

  lemma {:induction false} JoinHasNoNewline(tokens: seq<string>)
    requires |tokens| >= 1
    requires forall k :: 0 <= k < |tokens| ==> '\n' !in tokens[k]
    ensures '\n' !in Join(tokens, ' ')
    decreases |tokens|
  {
    if |tokens| > 1 {
      JoinHasNoNewline(tokens[1..]);
    }
  }

  // ---------------------------------------------------------------------
  // The specification of the loop: classify every row, then gather

  /** The outcome of each row, in order. */
  function Outcomes(rows: seq<seq<string>>): seq<Result<RowOutcome, Error>>
  {
    seq(|rows|, i requires 0 <= i < |rows| => Classify(rows[i]))
  }

  /** The record an outcome contributes to the output: none, or one. */
  function RowRecords(outcome: Result<RowOutcome, Error>): seq<Record>
  {
    if outcome.Ok? && outcome.value.Kept? then [outcome.value.record] else []
  }

  /** The records of the kept outcomes, in order (the filter). */
  function KeptOf(outs: seq<Result<RowOutcome, Error>>): seq<Record>
    decreases |outs|
  {
    if outs == [] then [] else RowRecords(outs[0]) + KeptOf(outs[1..])
  }

  /** The records of the rows that are kept, in input order. */
  function KeptRecords(rows: seq<seq<string>>): seq<Record>
  {
    KeptOf(Outcomes(rows))
  }

  /** The label line of each record (the map). */
  function RenderAll(size: ImageSize, recs: seq<Record>, fmt: real -> string): seq<string>
  {
    seq(|recs|, i requires 0 <= i < |recs| => RecordLine(size, recs[i], fmt))
  }

  /** Every row can be handled without raising. */
  predicate AllRowsParse(rows: seq<seq<string>>)
  {
    forall i :: 0 <= i < |rows| ==> Classify(rows[i]).Ok?
  }

  /** No element is an exception. */
  predicate AllOk<T>(xs: seq<Result<T, Error>>)
  {
    forall i :: 0 <= i < |xs| ==> xs[i].Ok?
  }

  /** The lines a row appends: none when it is ignored, else its label line. */
  function RowLines(size: ImageSize, outcome: RowOutcome, fmt: real -> string): seq<string>
  {
    if outcome.Kept? then [RecordLine(size, outcome.record, fmt)] else []
  }

  /** What handling one row contributes: the lines it appends, or its exception. */
  function RowPart(size: ImageSize, outcome: Result<RowOutcome, Error>, fmt: real -> string): Result<seq<string>, Error>
  {
    if outcome.Err? then Err(outcome.error) else Ok(RowLines(size, outcome.value, fmt))
  }

  function Parts(size: ImageSize, outs: seq<Result<RowOutcome, Error>>, fmt: real -> string): seq<Result<seq<string>, Error>>
  {
    seq(|outs|, i requires 0 <= i < |outs| => RowPart(size, outs[i], fmt))
  }

  /** The parts concatenated in order, or the first exception among them. */
  function Gather<T>(parts: seq<Result<seq<T>, Error>>): Result<seq<T>, Error>
    decreases |parts|
  {
    if parts == [] then Ok([])
    else if parts[0].Err? then Err(parts[0].error)
    else
      var tail := Gather(parts[1..]);
      if tail.Err? then tail else Ok(parts[0].value + tail.value)
  }

  /**
   * The lines the loop builds for `rows`, or the exception of the first row
   * that raises.
   */
  function ConvertRows(size: ImageSize, rows: seq<seq<string>>, fmt: real -> string): Result<seq<string>, Error>
  {
    Gather(Parts(size, Outcomes(rows), fmt))
  }

  /** `[x.split(',') for x in lines]`. */
  function Rows(lines: seq<string>): seq<seq<string>>
  {
    seq(|lines|, i requires 0 <= i < |lines| => Split(lines[i], ','))
  }

  // Sequences of outcomes and parts under concatenation and prefixes

  lemma OutcomesAppend(a: seq<seq<string>>, b: seq<seq<string>>)
    ensures Outcomes(a + b) == Outcomes(a) + Outcomes(b)
  {
    forall i | 0 <= i < |a + b| ensures Outcomes(a + b)[i] == (Outcomes(a) + Outcomes(b))[i] {
      if i < |a| { assert (a + b)[i] == a[i]; } else { assert (a + b)[i] == b[i - |a|]; }
    }
  }

  lemma OutcomesPrefix(rows: seq<seq<string>>, i: nat)
    requires i <= |rows|
    ensures Outcomes(rows[..i]) == Outcomes(rows)[..i]
  {
  }

  lemma OutcomesSingle(row: seq<string>)
    ensures Outcomes([row]) == [Classify(row)]
  {
  }

  lemma AllRowsParseIsAllOk(rows: seq<seq<string>>)
    ensures AllRowsParse(rows) <==> AllOk(Outcomes(rows))
  {
    var outs := Outcomes(rows);
    assert forall i :: 0 <= i < |rows| ==> outs[i] == Classify(rows[i]);
  }

  lemma PartsAppend(size: ImageSize, a: seq<Result<RowOutcome, Error>>, b: seq<Result<RowOutcome, Error>>,
                    fmt: real -> string)
    ensures Parts(size, a + b, fmt) == Parts(size, a, fmt) + Parts(size, b, fmt)
  {
    forall i | 0 <= i < |a + b| ensures Parts(size, a + b, fmt)[i] == (Parts(size, a, fmt) + Parts(size, b, fmt))[i] {
      if i < |a| { assert (a + b)[i] == a[i]; } else { assert (a + b)[i] == b[i - |a|]; }
    }
  }

  lemma PartsPrefix(size: ImageSize, outs: seq<Result<RowOutcome, Error>>, i: nat, fmt: real -> string)
    requires i <= |outs|
    ensures Parts(size, outs[..i], fmt) == Parts(size, outs, fmt)[..i]
  {
  }

  lemma PartsAllOk(size: ImageSize, outs: seq<Result<RowOutcome, Error>>, fmt: real -> string)
    ensures AllOk(Parts(size, outs, fmt)) <==> AllOk(outs)
  {
    var parts := Parts(size, outs, fmt);
    assert forall i :: 0 <= i < |outs| ==> parts[i] == RowPart(size, outs[i], fmt);
  }

  lemma AllOkTail<T>(xs: seq<Result<T, Error>>)
    requires |xs| > 0 && AllOk(xs)
    ensures xs[0].Ok? && AllOk(xs[1..])
  {
    forall i | 0 <= i < |xs| - 1 ensures xs[1..][i].Ok? {
      assert xs[1..][i] == xs[i + 1];
    }
  }

  // Gather

  /** `Gather` on a part followed by more parts. */
  lemma GatherCons<T>(p: Result<seq<T>, Error>, rest: seq<Result<seq<T>, Error>>)
    ensures p.Err? ==> Gather([p] + rest) == Err(p.error)
    ensures p.Ok? && Gather(rest).Err? ==> Gather([p] + rest) == Gather(rest)
    ensures p.Ok? && Gather(rest).Ok? ==> Gather([p] + rest) == Ok(p.value + Gather(rest).value)
  {
    assert ([p] + rest)[0] == p && ([p] + rest)[1..] == rest;
  }

  lemma {:induction false} GatherOkIff<T>(parts: seq<Result<seq<T>, Error>>)
    ensures Gather(parts).Ok? <==> AllOk(parts)
    decreases |parts|
  {
    if parts != [] {
      GatherOkIff(parts[1..]);
      assert AllOk(parts) <==> parts[0].Ok? && AllOk(parts[1..]) by {
        if AllOk(parts) {
          AllOkTail(parts);
        }
        if parts[0].Ok? && AllOk(parts[1..]) {
          forall i | 0 <= i < |parts| ensures parts[i].Ok? {
            if i > 0 { assert parts[i] == parts[1..][i - 1]; }
          }
        }
      }
    }
  }

  lemma {:induction false} GatherFirstError<T>(parts: seq<Result<seq<T>, Error>>, i: nat)
    requires i < |parts| && parts[i].Err?
    requires forall j :: 0 <= j < i ==> parts[j].Ok?
    ensures Gather(parts) == Err(parts[i].error)
    decreases i
  {
    if i > 0 {
      assert parts[1..][i - 1] == parts[i];
      forall j | 0 <= j < i - 1 ensures parts[1..][j].Ok? {
        assert parts[1..][j] == parts[j + 1];
      }
      GatherFirstError(parts[1..], i - 1);
    }
  }

  lemma {:induction false} GatherAppend<T>(a: seq<Result<seq<T>, Error>>, b: seq<Result<seq<T>, Error>>, done: seq<T>)
    requires Gather(a) == Ok(done)
    ensures Gather(b).Err? ==> Gather(a + b) == Gather(b)
    ensures Gather(b).Ok? ==> Gather(a + b) == Ok(done + Gather(b).value)
    decreases |a|
  {
    if a == [] {
      assert a + b == b;
      assert done == [];
      if Gather(b).Ok? {
        assert done + Gather(b).value == Gather(b).value;
      }
    } else {
      var p := a[0];
      var tail := a[1..];
      assert a == [p] + tail;
      assert a + b == [p] + (tail + b);
      GatherCons(p, tail);
      GatherCons(p, tail + b);
      var rest := Gather(tail).value;
      GatherAppend(tail, b, rest);
      if Gather(b).Ok? {
        var more := Gather(b).value;
        assert p.value + (rest + more) == (p.value + rest) + more;
      }
    }
  }

  lemma {:induction false} GatherDropsEmpty<T>(a: seq<Result<seq<T>, Error>>, b: seq<Result<seq<T>, Error>>)
    ensures Gather(a + [Ok([])] + b) == Gather(a + b)
    decreases |a|
  {
    var all := a + [Ok([])] + b;
    if a == [] {
      assert all == [Ok([])] + b;
      assert a + b == b;
      GatherCons(Ok([]), b);
      if Gather(b).Ok? {
        assert [] + Gather(b).value == Gather(b).value;
      }
    } else {
      GatherDropsEmpty(a[1..], b);
      assert all == [a[0]] + (a[1..] + [Ok([])] + b);
      assert a + b == [a[0]] + (a[1..] + b);
      GatherCons(a[0], a[1..] + [Ok([])] + b);
      GatherCons(a[0], a[1..] + b);
    }
  }

  lemma GatherStep<T>(parts: seq<Result<seq<T>, Error>>, i: nat, done: seq<T>)
    requires i < |parts| && Gather(parts[..i]) == Ok(done)
    ensures parts[i].Err? ==> Gather(parts) == Err(parts[i].error)
    ensures parts[i].Ok? ==> Gather(parts[..i + 1]) == Ok(done + parts[i].value)
  {
    var p := parts[i];
    GatherCons(p, []);
    assert [p] + [] == [p];
    assert Gather<T>([]) == Ok([]);
    if p.Err? {
      assert parts == parts[..i] + ([p] + parts[i + 1..]);
      GatherCons(p, parts[i + 1..]);
      GatherAppend(parts[..i], [p] + parts[i + 1..], done);
    } else {
      assert p.value + [] == p.value;
      assert parts[..i + 1] == parts[..i] + [p];
      GatherAppend(parts[..i], [p], done);
    }
  }

  // The filter and the map

  lemma RenderAllAppend(size: ImageSize, a: seq<Record>, b: seq<Record>, fmt: real -> string)
    ensures RenderAll(size, a + b, fmt) == RenderAll(size, a, fmt) + RenderAll(size, b, fmt)
  {
    var all := RenderAll(size, a + b, fmt);
    var parts := RenderAll(size, a, fmt) + RenderAll(size, b, fmt);
    forall i | 0 <= i < |a + b| ensures all[i] == parts[i] {
      if i < |a| { assert (a + b)[i] == a[i]; } else { assert (a + b)[i] == b[i - |a|]; }
    }
  }

  lemma {:induction false} GatherIsFilterMap(size: ImageSize, outs: seq<Result<RowOutcome, Error>>, fmt: real -> string)
    requires AllOk(outs)
    ensures Gather(Parts(size, outs, fmt)) == Ok(RenderAll(size, KeptOf(outs), fmt))
    decreases |outs|
  {
    if outs == [] {
      assert Parts(size, outs, fmt) == [];
      assert RenderAll(size, [], fmt) == [];
    } else {
      AllOkTail(outs);
      GatherIsFilterMap(size, outs[1..], fmt);
      var p := RowPart(size, outs[0], fmt);
      assert Parts(size, outs, fmt) == [p] + Parts(size, outs[1..], fmt);
      GatherCons(p, Parts(size, outs[1..], fmt));
      var front := RowRecords(outs[0]);
      assert p.value == RenderAll(size, front, fmt);
      RenderAllAppend(size, front, KeptOf(outs[1..]), fmt);
    }
  }

  lemma {:induction false} KeptOfAppend(a: seq<Result<RowOutcome, Error>>, b: seq<Result<RowOutcome, Error>>)
    ensures KeptOf(a + b) == KeptOf(a) + KeptOf(b)
    decreases |a|
  {
    if a == [] {
      assert a + b == b;
    } else {
      assert (a + b)[0] == a[0] && (a + b)[1..] == a[1..] + b;
      KeptOfAppend(a[1..], b);
      var front := RowRecords(a[0]);
      assert front + (KeptOf(a[1..]) + KeptOf(b)) == (front + KeptOf(a[1..])) + KeptOf(b);
    }
  }

  lemma KeptOfSingle(o: Result<RowOutcome, Error>)
    ensures KeptOf([o]) == RowRecords(o)
  {
    assert [o][0] == o && [o][1..] == [];
  }

  /** Every record kept from the outcomes comes from a kept outcome, at its output position. */
  lemma {:induction false} KeptOfFrom(outs: seq<Result<RowOutcome, Error>>, k: nat)
    requires k < |KeptOf(outs)|
    ensures exists i :: 0 <= i < |outs| && outs[i] == Ok(Kept(KeptOf(outs)[k])) && |KeptOf(outs[..i])| == k
    decreases |outs|
  {
    var front := RowRecords(outs[0]);
    var tail := outs[1..];
    if k < |front| {
      assert outs[..0] == [] && KeptOf([]) == [];
      assert outs[0] == Ok(Kept(KeptOf(outs)[k]));
    } else {
      KeptOfFrom(tail, k - |front|);
      var i :| 0 <= i < |tail| && tail[i] == Ok(Kept(KeptOf(tail)[k - |front|])) && |KeptOf(tail[..i])| == k - |front|;
      assert |KeptOf(outs[..i + 1])| == k by {
        assert outs[..i + 1] == [outs[0]] + tail[..i];
        KeptOfAppend([outs[0]], tail[..i]);
        KeptOfSingle(outs[0]);
      }
      assert outs[i + 1] == Ok(Kept(KeptOf(outs)[k]));
    }
  }

  // ---------------------------------------------------------------------
  // The specification on rows

  /** When no row raises, the output is the map of the line format over the filtered records. */
  lemma ConvertRowsIsFilterMap(size: ImageSize, rows: seq<seq<string>>, fmt: real -> string)
    requires AllRowsParse(rows)
    ensures ConvertRows(size, rows, fmt) == Ok(RenderAll(size, KeptRecords(rows), fmt))
  {
    AllRowsParseIsAllOk(rows);
    GatherIsFilterMap(size, Outcomes(rows), fmt);
  }

  /** The conversion succeeds exactly when no row raises. */
  lemma ConvertRowsOkIff(size: ImageSize, rows: seq<seq<string>>, fmt: real -> string)
    ensures ConvertRows(size, rows, fmt).Ok? <==> AllRowsParse(rows)
  {
    AllRowsParseIsAllOk(rows);
    PartsAllOk(size, Outcomes(rows), fmt);
    GatherOkIff(Parts(size, Outcomes(rows), fmt));
  }

  /** The exception raised is the one of the first row that raises. */
  lemma ConvertRowsFirstError(size: ImageSize, rows: seq<seq<string>>, fmt: real -> string, i: nat)
    requires i < |rows| && Classify(rows[i]).Err?
    requires forall j :: 0 <= j < i ==> Classify(rows[j]).Ok?
    ensures ConvertRows(size, rows, fmt) == Err(Classify(rows[i]).error)
  {
    var parts := Parts(size, Outcomes(rows), fmt);
    assert forall j :: 0 <= j < |rows| ==> parts[j] == RowPart(size, Classify(rows[j]), fmt);
    GatherFirstError(parts, i);
  }

  /** An ignored row can be taken out without changing the outcome. */
  lemma ConvertRowsSkipsIgnored(size: ImageSize, before: seq<seq<string>>, row: seq<string>,
                                after: seq<seq<string>>, fmt: real -> string)
    requires |row| > ScoreField && row[ScoreField] == IgnoredScore
    ensures ConvertRows(size, before + [row] + after, fmt) == ConvertRows(size, before + after, fmt)
    ensures KeptRecords(before + [row] + after) == KeptRecords(before + after)
  {
    var a := Outcomes(before);
    var b := Outcomes(after);
    var ignored: Result<RowOutcome, Error> := Ok(Ignored);
    assert Classify(row) == ignored;
    OutcomesAppend(before + [row], after);
    OutcomesAppend(before, [row]);
    OutcomesSingle(row);
    OutcomesAppend(before, after);
    assert Outcomes(before + [row] + after) == a + [ignored] + b;
    PartsAppend(size, a + [ignored], b, fmt);
    PartsAppend(size, a, [ignored], fmt);
    PartsAppend(size, a, b, fmt);
    assert Parts(size, [ignored], fmt) == [Ok([])];
    GatherDropsEmpty(Parts(size, a, fmt), Parts(size, b, fmt));
    KeptOfAppend(a + [ignored], b);
    KeptOfAppend(a, [ignored]);
    KeptOfSingle(ignored);
    KeptOfAppend(a, b);
    assert KeptOf(a) + [] == KeptOf(a);
  }

  /** The records kept from two runs of rows are those of the first run, then those of the second. */
  lemma KeptRecordsAppend(a: seq<seq<string>>, b: seq<seq<string>>)
    ensures KeptRecords(a + b) == KeptRecords(a) + KeptRecords(b)
  {
    OutcomesAppend(a, b);
    KeptOfAppend(Outcomes(a), Outcomes(b));
  }

  /** The row is kept, with record `rec`. */
  predicate KeptAs(row: seq<string>, rec: Record)
  {
    Classify(row) == Ok(Kept(rec))
  }

  /** The output position of row `i`: how many rows before it are kept. */
  function OutputIndex(rows: seq<seq<string>>, i: nat): nat
    requires i <= |rows|
  {
    |KeptRecords(rows[..i])|
  }

  lemma KeptRecordsSingle(row: seq<string>)
    ensures KeptRecords([row]) == RowRecords(Classify(row))
  {
    OutcomesSingle(row);
    KeptOfSingle(Classify(row));
  }

  /** A kept row's record sits at its output position. */
  lemma KeptRecordAt(rows: seq<seq<string>>, i: nat, rec: Record)
    requires i < |rows| && KeptAs(rows[i], rec)
    ensures OutputIndex(rows, i) < |KeptRecords(rows)|
    ensures KeptRecords(rows)[OutputIndex(rows, i)] == rec
  {
    assert rows == rows[..i] + [rows[i]] + rows[i + 1..];
    KeptRecordsAppend(rows[..i] + [rows[i]], rows[i + 1..]);
    KeptRecordsAppend(rows[..i], [rows[i]]);
    KeptRecordsSingle(rows[i]);
  }

  /** Kept rows keep their relative order in the output. */
  lemma OutputIndexOrdered(rows: seq<seq<string>>, i: nat, j: nat, rec: Record)
    requires i < j <= |rows| && KeptAs(rows[i], rec)
    ensures OutputIndex(rows, i) < OutputIndex(rows, j)
  {
    assert rows[..j] == rows[..i] + [rows[i]] + rows[i + 1..j];
    KeptRecordsAppend(rows[..i] + [rows[i]], rows[i + 1..j]);
    KeptRecordsAppend(rows[..i], [rows[i]]);
    KeptRecordsSingle(rows[i]);
  }

  /** Every output record comes from some kept row, at that row's output position. */
  lemma KeptRecordsFromRows(rows: seq<seq<string>>, k: nat)
    requires k < |KeptRecords(rows)|
    ensures exists i :: 0 <= i < |rows| && KeptAs(rows[i], KeptRecords(rows)[k]) && OutputIndex(rows, i) == k
  {
    var outs := Outcomes(rows);
    KeptOfFrom(outs, k);
    var i :| 0 <= i < |outs| && outs[i] == Ok(Kept(KeptOf(outs)[k])) && |KeptOf(outs[..i])| == k;
    OutcomesPrefix(rows, i);
    assert KeptAs(rows[i], KeptRecords(rows)[k]) && OutputIndex(rows, i) == k;
  }

  // ---------------------------------------------------------------------
  // The loop itself

  /** What a single row produces on its own. */
  lemma ConvertRowsSingle(size: ImageSize, row: seq<string>, fmt: real -> string)
    ensures Classify(row).Err? ==> ConvertRows(size, [row], fmt) == Err(Classify(row).error)
    ensures Classify(row).Ok? ==> ConvertRows(size, [row], fmt) == Ok(RowLines(size, Classify(row).value, fmt))
  {
    OutcomesSingle(row);
    var p := RowPart(size, Classify(row), fmt);
    assert Parts(size, [Classify(row)], fmt) == [p];
    GatherCons(p, []);
    assert [p] + [] == [p];
    assert Gather<string>([]) == Ok([]);
    if p.Ok? {
      assert p.value + [] == p.value;
    }
  }

  /** What handling row `i` does to the lines built from the rows before it. */
  lemma ConvertRowsStep(size: ImageSize, rows: seq<seq<string>>, i: nat, fmt: real -> string, done: seq<string>)
    requires i < |rows| && ConvertRows(size, rows[..i], fmt) == Ok(done)
    ensures Classify(rows[i]).Err? ==> ConvertRows(size, rows, fmt) == Err(Classify(rows[i]).error)
    ensures Classify(rows[i]).Ok? ==>
      ConvertRows(size, rows[..i + 1], fmt) == Ok(done + RowLines(size, Classify(rows[i]).value, fmt))
  {
    var outs := Outcomes(rows);
    OutcomesPrefix(rows, i);
    OutcomesPrefix(rows, i + 1);
    PartsPrefix(size, outs, i, fmt);
    PartsPrefix(size, outs, i + 1, fmt);
    var parts := Parts(size, outs, fmt);
    assert parts[i] == RowPart(size, Classify(rows[i]), fmt);
    GatherStep(parts, i, done);
  }

  /** What a row that passes every check of the loop body appends. */
  lemma KeptRowLine(size: ImageSize, row: seq<string>, category: int, c: seq<int>, fmt: real -> string)
    requires |row| > CategoryField && row[ScoreField] != IgnoredScore
    requires ParseInt(row[CategoryField]) == Some(category) && ParseInts(row[..4]) == Ok(c)
    ensures |c| == 4
    ensures Classify(row).Ok? && RowLines(size, Classify(row).value, fmt) ==
      [FormatLine(category - 1, ConvertBox(size, Box(c[0] as real, c[1] as real, c[2] as real, c[3] as real)), fmt)]
  {
    assert Classify(row) == Ok(Kept(Record(category - 1, c[0], c[1], c[2], c[3])));
  }

  /**
   * The loop of `visdrone2yolo` over the stripped lines of one annotation
   * file: it appends one label line per kept row and stops at the first row
   * that raises.
   */
  method ConvertAnnotation(size: ImageSize, lines: seq<string>, fmt: real -> string)
    returns (r: Result<seq<string>, Error>)
    ensures r == ConvertRows(size, Rows(lines), fmt)
  {
    ghost var rows := Rows(lines);
    var out: seq<string> := [];
    for i := 0 to |lines|
      invariant ConvertRows(size, rows[..i], fmt) == Ok(out)
    {
      var row := Split(lines[i], ',');
      assert row == rows[i];
      ConvertRowsStep(size, rows, i, fmt, out);
      if |row| <= ScoreField {
        return Err(IndexError(ScoreField));
      }
      if row[ScoreField] == IgnoredScore {
        assert out + RowLines(size, Ignored, fmt) == out;
        continue;
      }
      if |row| <= CategoryField {
        return Err(IndexError(CategoryField));
      }
      var category := ParseInt(row[CategoryField]);
      if category.None? {
        return Err(ValueError(row[CategoryField]));
      }
      var cls := category.value - 1;
      var coords := ParseInts(row[..4]);
      if coords.Err? {
        return Err(coords.error);
      }
      var c := coords.value;
      KeptRowLine(size, row, category.value, c, fmt);
      var yoloBox := ConvertBox(size, Box(c[0] as real, c[1] as real, c[2] as real, c[3] as real));
      out := out + [FormatLine(cls, yoloBox, fmt)];
    }
    assert rows[..|lines|] == rows;
    return Ok(out);
  }
}
