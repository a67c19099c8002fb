/**
 * Models of the Python string and integer built-ins the converter relies on:
 * `str.split` and `str.join` with a one-character separator, `str.rfind`,
 * `str.replace`, `int(text)` and `str(n)` (as used by an f-string).
 */
module PyStr {
  import opened Wrappers

  // ---------------------------------------------------------------------
  // str.split(sep) and sep.join(fields)

  /** `s.split(sep)`: the pieces of `s` between separators, in order. */
  function Split(s: string, sep: char): (fields: seq<string>)
    ensures |fields| >= 1
    ensures forall i :: 0 <= i < |fields| ==> sep !in fields[i]
    decreases |s|
  {
    if s == [] then [""]
    else
      var rest := Split(s[1..], sep);
      if s[0] == sep then [""] + rest
      else [[s[0]] + rest[0]] + rest[1..]
  }

  /** `sep.join(fields)`. */
  function Join(fields: seq<string>, sep: char): string
    requires |fields| >= 1
    decreases |fields|
  {
    if |fields| == 1 then fields[0]
    else fields[0] + [sep] + Join(fields[1..], sep)
  }

  /** Joining the pieces of a split with the same separator gives the text back. */
  lemma {:induction false} JoinSplit(s: string, sep: char)
    ensures Join(Split(s, sep), sep) == s
    decreases |s|
  {
    if s != [] {
      var rest := Split(s[1..], sep);
      JoinSplit(s[1..], sep);
      if s[0] == sep {
        assert Split(s, sep) == [""] + rest;
        assert ([""] + rest)[1..] == rest;
      } else if |rest| == 1 {
        assert Split(s, sep) == [[s[0]] + rest[0]];
      } else {
        var fields := Split(s, sep);
        assert fields == [[s[0]] + rest[0]] + rest[1..];
        assert fields[1..] == rest[1..];
        assert Join(rest, sep) == rest[0] + [sep] + Join(rest[1..], sep);
      }
    }
  }

  lemma {:induction false} SplitNoSeparator(a: string, sep: char)
    requires sep !in a
    ensures Split(a, sep) == [a]
    decreases |a|
  {
    if a != [] {
      SplitNoSeparator(a[1..], sep);
      assert [a[0]] + a[1..] == a;
    }
  }

  lemma {:induction false} SplitFirstSeparator(a: string, sep: char, t: string)
    requires sep !in a
    ensures Split(a + [sep] + t, sep) == [a] + Split(t, sep)
    decreases |a|
  {
    var s := a + [sep] + t;
    if a == [] {
      assert s[1..] == t;
    } else {
      assert s[1..] == a[1..] + [sep] + t;
      SplitFirstSeparator(a[1..], sep, t);
      assert [a[0]] + a[1..] == a;
    }
  }

  /** Splitting a join of separator-free fields gives the fields back. */
  lemma {:induction false} SplitJoin(fields: seq<string>, sep: char)
    requires |fields| >= 1
    requires forall i :: 0 <= i < |fields| ==> sep !in fields[i]
    ensures Split(Join(fields, sep), sep) == fields
    decreases |fields|
  {
    if |fields| == 1 {
      SplitNoSeparator(fields[0], sep);
    } else {
      SplitJoin(fields[1..], sep);
      SplitFirstSeparator(fields[0], sep, Join(fields[1..], sep));
      assert [fields[0]] + fields[1..] == fields;
    }
  }

  // ---------------------------------------------------------------------
  // str.rfind(c)

  /** `s.rfind(c)`: the index of the last `c` in `s`, or -1 when there is none. */
  function RFind(s: string, c: char): (i: int)
    ensures -1 <= i < |s|
    ensures 0 <= i ==> s[i] == c
    ensures forall j :: i < j < |s| ==> s[j] != c
    decreases |s|
  {
    if s == [] then -1
    else if s[|s| - 1] == c then |s| - 1
    else RFind(s[..|s| - 1], c)
  }

  // ---------------------------------------------------------------------
  // str.replace(pat, rep)

  /** `pat` occurs in `s` starting at index `i`. */
  predicate OccursAt(pat: string, s: string, i: int)
  {
    0 <= i && i + |pat| <= |s| && s[i..i + |pat|] == pat
  }

  ghost predicate NoOccurrence(pat: string, s: string)
  {
    forall i :: !OccursAt(pat, s, i)
  }

  /**
   * `s.replace(pat, rep)`: scanning left to right, every occurrence of `pat`
   * that does not overlap an occurrence already replaced becomes `rep`.
   */
  function Replace(s: string, pat: string, rep: string): string
    requires |pat| > 0
    decreases |s|
  {
    if |s| < |pat| then s
    else if s[..|pat|] == pat then rep + Replace(s[|pat|..], pat, rep)
    else [s[0]] + Replace(s[1..], pat, rep)
  }

  lemma NoOccurrenceTail(pat: string, s: string)
    requires |s| > 0 && NoOccurrence(pat, s)
    ensures NoOccurrence(pat, s[1..])
  {
    forall i ensures OccursAt(pat, s[1..], i) == OccursAt(pat, s, i + 1) {
      if 0 <= i && i + |pat| <= |s| - 1 {
        assert s[1..][i..i + |pat|] == s[i + 1..i + 1 + |pat|];
      }
    }
  }

  /** The pattern cannot occur where its first character does not. */
  lemma NoOccurrenceByFirstChar(pat: string, s: string)
    requires |pat| > 0
    requires forall i :: 0 <= i <= |s| - |pat| ==> s[i] != pat[0]
    ensures NoOccurrence(pat, s)
  {
    forall i ensures !OccursAt(pat, s, i) {
      if 0 <= i && i + |pat| <= |s| {
        assert s[i..i + |pat|][0] == s[i];
      }
    }
  }

  /** A text without an occurrence of the pattern is left unchanged. */
  lemma {:induction false} ReplaceNoOccurrence(s: string, pat: string, rep: string)
    requires |pat| > 0 && NoOccurrence(pat, s)
    ensures Replace(s, pat, rep) == s
    decreases |s|
  {
    if |s| >= |pat| {
      assert !OccursAt(pat, s, 0);
      NoOccurrenceTail(pat, s);
      ReplaceNoOccurrence(s[1..], pat, rep);
      assert [s[0]] + s[1..] == s;
    }
  }

  /**
   * When the first occurrence of `pat` in `s` starts right after `a`, the text
   * before it is kept, that occurrence becomes `rep`, and replacing goes on
   * after it.
   */
  lemma {:induction false} ReplaceFirstOccurrence(a: string, pat: string, b: string, rep: string)
    requires |pat| > 0
    requires NoOccurrence(pat, a + pat[..|pat| - 1])
    ensures Replace(a + pat + b, pat, rep) == a + rep + Replace(b, pat, rep)
    decreases |a|
  {
    var s := a + pat + b;
    if a == [] {
      assert s[..|pat|] == pat;
      assert s[|pat|..] == b;
    } else {
      NoOccurrenceAfterHead(a, pat, b);
      assert s[0] == a[0] && s[1..] == a[1..] + pat + b;
      ReplaceNoMatchAtHead(s, pat, rep);
      ReplaceFirstOccurrence(a[1..], pat, b, rep);
      assert [a[0]] + a[1..] == a;
    }
  }

  /** Where the pattern does not start at the head, the head is kept and replacing goes on after it. */
  lemma ReplaceNoMatchAtHead(s: string, pat: string, rep: string)
    requires |pat| > 0 && |s| >= |pat| && s[..|pat|] != pat
    ensures Replace(s, pat, rep) == [s[0]] + Replace(s[1..], pat, rep)
  {
  }

  /** No occurrence in `a + pat[..|pat| - 1]`: none at the head of `a + pat + b`, and none in the rest of `a`. */
  lemma NoOccurrenceAfterHead(a: string, pat: string, b: string)
    requires |a| > 0 && |pat| > 0 && NoOccurrence(pat, a + pat[..|pat| - 1])
    ensures (a + pat + b)[..|pat|] != pat
    ensures NoOccurrence(pat, a[1..] + pat[..|pat| - 1])
  {
    var p := a + pat[..|pat| - 1];
    assert !OccursAt(pat, p, 0);
    assert p[0..|pat|] == (a + pat + b)[..|pat|];
    NoOccurrenceTail(pat, p);
    assert p[1..] == a[1..] + pat[..|pat| - 1];
  }

  // ---------------------------------------------------------------------
  // int(text) and str(n)

  predicate IsDigit(c: char) { '0' <= c <= '9' }

  predicate AllDigits(s: string) { forall i :: 0 <= i < |s| ==> IsDigit(s[i]) }

  /** The value of a string of decimal digits. */
  function DigitsValue(s: string): nat
    requires AllDigits(s)
    decreases |s|
  {
    if s == [] then 0
    else 10 * DigitsValue(s[..|s| - 1]) + (s[|s| - 1] as int - '0' as int)
  }

  /** `int(text)` for an optional sign followed by one or more ASCII digits; anything else raises. */
  function ParseInt(s: string): Option<int>
  {
    if |s| > 0 && (s[0] == '+' || s[0] == '-') then
      var digits := s[1..];
      if |digits| > 0 && AllDigits(digits) then
        var magnitude: int := DigitsValue(digits);
        Some(if s[0] == '-' then -magnitude else magnitude)
      else None
    else if |s| > 0 && AllDigits(s) then Some(DigitsValue(s))
    else None
  }

  function DigitChar(d: nat): (c: char)
    requires d < 10
    ensures IsDigit(c) && c as int - '0' as int == d
  {
    ('0' as int + d) as char
  }

  /** Decimal digits of `n`, without leading zeros. */
  function NatToString(n: nat): (s: string)
    ensures |s| >= 1 && AllDigits(s)
    ensures s[0] == '0' ==> n == 0
  {
    if n < 10 then [DigitChar(n)]
    else NatToString(n / 10) + [DigitChar(n % 10)]
  }

  /** `str(n)`: a leading `-` for a negative number, then the digits. */
  function IntToString(n: int): string
  {
    if n < 0 then "-" + NatToString(-n) else NatToString(n)
  }

  lemma {:induction false} DigitsValueOfNatToString(n: nat)
    ensures DigitsValue(NatToString(n)) == n
  {
    if n >= 10 {
      var s := NatToString(n);
      DigitsValueOfNatToString(n / 10);
      assert s[..|s| - 1] == NatToString(n / 10);
    }
  }

  /** `int(str(n)) == n`: the rendered class number parses back to itself. */
  lemma {:induction false} ParseIntOfIntToString(n: int)
    ensures ParseInt(IntToString(n)) == Some(n)
  {
    var m: nat := if n < 0 then -n else n;
    var d := NatToString(m);
    DigitsValueOfNatToString(m);
    assert IsDigit(d[0]);
    if n < 0 {
      var s := "-" + d;
      assert s[0] == '-' && s[1..] == d;
    }
  }

  /** A rendered integer holds neither a space nor a newline. */
  lemma IntToStringHasNoBlank(n: int)
    ensures ' ' !in IntToString(n) && '\n' !in IntToString(n)
  {
    var s := IntToString(n);
    var d := NatToString(if n < 0 then -n else n);
    assert forall i :: 0 <= i < |d| ==> IsDigit(d[i]);
    if n < 0 {
      assert forall i :: 1 <= i < |s| ==> s[i] == d[i - 1];
    }
  }
}
