/**
 * Single rows of a VisDrone annotation file for a 1000 x 800 image, and
 * what the converter does with each.
 */
module WorkedRows {
  import opened Wrappers
  import opened PyStr
  import opened BoxConvert
  import opened Labels

  const Size := ImageSize(1000, 800)

  lemma ParsesTo(s: string, v: nat)
    requires |s| > 0 && AllDigits(s) && DigitsValue(s) == v
    ensures ParseInt(s) == Some(v)
  {
    assert IsDigit(s[0]);
  }

  /** The fields `100,200,50,40,0,3`: the fifth is `"0"`, an ignored region, so no label line. */
  lemma IgnoredRegionRow(fmt: real -> string)
    ensures ConvertRows(Size, [["100", "200", "50", "40", "0", "3"]], fmt) == Ok([])
  {
    var row := ["100", "200", "50", "40", "0", "3"];
    assert Classify(row) == Ok(Ignored);
    ConvertRowsSingle(Size, row, fmt);
  }

  /** The fields `100,200,50,40,1,3`: class 2 and the box (0.125, 0.275, 0.05, 0.05). */
  lemma KeptRow(fmt: real -> string)
    ensures ConvertRows(Size, [["100", "200", "50", "40", "1", "3"]], fmt) ==
      Ok([FormatLine(2, YoloBox(0.125, 0.275, 0.05, 0.05), fmt)])
  {
    var row := ["100", "200", "50", "40", "1", "3"];
    var rec := Record(2, 100, 200, 50, 40);
    assert ConvertRows(Size, [row], fmt) == Ok(RowLines(Size, Kept(rec), fmt)) by {
      KeptRowRecord(row);
      ConvertRowsSingle(Size, row, fmt);
    }
    KeptRowBox(rec);
  }

  lemma KeptRowRecord(row: seq<string>)
    requires row == ["100", "200", "50", "40", "1", "3"]
    ensures Classify(row) == Ok(Kept(Record(2, 100, 200, 50, 40)))
  {
    ParsesTo("3", 3);
    ParsesTo("100", 100);
    ParsesTo("200", 200);
    ParsesTo("50", 50);
    ParsesTo("40", 40);
    assert row[..4] == ["100", "200", "50", "40"];
    ParseFour("100", "200", "50", "40", 100, 200, 50, 40);
  }

  lemma KeptRowBox(rec: Record)
    requires rec == Record(2, 100, 200, 50, 40)
    ensures ConvertBox(Size, PixelBox(rec)) == YoloBox(0.125, 0.275, 0.05, 0.05)
  {
    var r := ConvertBox(Size, PixelBox(rec));
    assert r.cx * 1000.0 == 125.0;
    assert r.cy * 800.0 == 220.0;
    assert r.w * 1000.0 == 50.0;
    assert r.h * 800.0 == 40.0;
  }

  /** Only the exact text `"0"` marks an ignored region: `"00"` is kept. */
  lemma DoubleZeroScoreIsKept()
    ensures Classify(["100", "200", "50", "40", "00", "3"]) == Ok(Kept(Record(2, 100, 200, 50, 40)))
  {
    var row := ["100", "200", "50", "40", "00", "3"];
    ParsesTo("3", 3);
    ParsesTo("100", 100);
    ParsesTo("200", 200);
    ParsesTo("50", 50);
    ParsesTo("40", 40);
    assert row[..4] == ["100", "200", "50", "40"];
    ParseFour("100", "200", "50", "40", 100, 200, 50, 40);
  }

  /** A row without a fifth field raises `IndexError` before anything else is looked at. */
  lemma ShortRowRaises()
    ensures Classify(["1", "2", "3", "4"]) == Err(IndexError(4))
    ensures Classify(["1", "2", "3", "4", "1"]) == Err(IndexError(5))
  {
  }

  /** A box field that is not an integer raises `ValueError` with that text. */
  lemma NonIntegerFieldRaises()
    ensures Classify(["1", "x", "3", "4", "1", "3"]) == Err(ValueError("x"))
  {
    var row := ["1", "x", "3", "4", "1", "3"];
    ParsesTo("3", 3);
    ParsesTo("1", 1);
    assert row[..4] == ["1", "x", "3", "4"];
    assert ["1", "x", "3", "4"][1..] == ["x", "3", "4"];
    assert ParseInt("x") == None;
  }

  lemma ParseCons(f: string, fs: seq<string>, v: int, vs: seq<int>)
    requires ParseInt(f) == Some(v) && ParseInts(fs) == Ok(vs)
    ensures ParseInts([f] + fs) == Ok([v] + vs)
  {
    assert ([f] + fs)[0] == f;
    assert ([f] + fs)[1..] == fs;
  }

  lemma ParseFour(a: string, b: string, c: string, d: string, va: int, vb: int, vc: int, vd: int)
    requires ParseInt(a) == Some(va) && ParseInt(b) == Some(vb)
    requires ParseInt(c) == Some(vc) && ParseInt(d) == Some(vd)
    ensures ParseInts([a, b, c, d]) == Ok([va, vb, vc, vd])
  {
    assert ParseInts([]) == Ok([]);
    ParseCons(d, [], vd, []);
    assert [d] + [] == [d] && [vd] + [] == [vd];
    ParseCons(c, [d], vc, [vd]);
    assert [c] + [d] == [c, d] && [vc] + [vd] == [vc, vd];
    ParseCons(b, [c, d], vb, [vc, vd]);
    assert [b] + [c, d] == [b, c, d] && [vb] + [vc, vd] == [vb, vc, vd];
    ParseCons(a, [b, c, d], va, [vb, vc, vd]);
    assert [a] + [b, c, d] == [a, b, c, d];
    assert [va] + [vb, vc, vd] == [va, vb, vc, vd];
  }
}
