/**
 * Spreadsheet column labels and cell addresses as openpyxl reads them:
 * column_index_from_string (bijective base 26, one to three letters,
 * either case), get_column_letter, and the "CV26" form of a cell address.
 */
module Columns {
  import opened Results
  import opened Text

  /** The last column openpyxl can name with three letters ("ZZZ"). */
  const MaxColumn: nat := 18278

  predicate IsLetter(c: char) { 'A' <= c <= 'Z' || 'a' <= c <= 'z' }

  predicate AllLetters(s: string) { forall i :: 0 <= i < |s| ==> IsLetter(s[i]) }

  predicate AllUpper(s: string) { forall i :: 0 <= i < |s| ==> 'A' <= s[i] <= 'Z' }

  function LetterValue(c: char): (d: nat)
    requires IsLetter(c)
    ensures 1 <= d <= 26
  {
    (UpperChar(c) as int) - ('A' as int) + 1
  }

  function LettersValue(s: string): nat
    requires AllLetters(s)
  {
    if s == [] then 0 else LettersValue(s[..|s| - 1]) * 26 + LetterValue(s[|s| - 1])
  }

  lemma LettersValueBounds(s: string)
    requires AllLetters(s) && 1 <= |s| <= 3
    ensures 1 <= LettersValue(s) <= MaxColumn
  {
    var a := s[..|s| - 1];
    if |s| > 1 {
      var b := a[..|a| - 1];
      if |a| > 1 {
        assert |b| == 1 && b[..0] == [];
        assert LettersValue(b) <= 26;
        assert LettersValue(b) * 26 <= 26 * 26;
      } else {
        assert a[..0] == [];
      }
      assert LettersValue(a) <= 702;
      assert LettersValue(a) * 26 <= 702 * 26;
    }
  }

  /** column_index_from_string: None where openpyxl raises ValueError. */
  function ColumnIndex(letters: string): (r: Option<nat>)
    ensures r.Some? <==> 1 <= |letters| <= 3 && AllLetters(letters)
    ensures r.Some? ==> 1 <= r.value <= MaxColumn
  {
    if 1 <= |letters| <= 3 && AllLetters(letters) then
      LettersValueBounds(letters);
      Some(LettersValue(letters))
    else None
  }

  function LetterFor(d: nat): (c: char)
    requires 1 <= d <= 26
    ensures 'A' <= c <= 'Z' && LetterValue(c) == d
  {
    (('A' as int) + d - 1) as char
  }

  /** get_column_letter: the letters of a 1-based column number. */
  function ColumnLabel(n: nat): (s: string)
    requires n >= 1
    ensures 1 <= |s| && AllUpper(s) && AllLetters(s)
  {
    if n <= 26 then [LetterFor(n)] else ColumnLabel((n - 1) / 26) + [LetterFor((n - 1) % 26 + 1)]
  }

  lemma {:induction false} ColumnLabelValue(n: nat)
    requires n >= 1
    ensures LettersValue(ColumnLabel(n)) == n
    ensures n <= MaxColumn ==> |ColumnLabel(n)| <= 3
  {
    if n > 26 {
      var s := ColumnLabel(n);
      ColumnLabelValue((n - 1) / 26);
      assert s[..|s| - 1] == ColumnLabel((n - 1) / 26);
      if n <= MaxColumn {
        var m := (n - 1) / 26;
        assert m <= 702;
        if m > 26 {
          assert (m - 1) / 26 <= 26;
        }
      }
    }
  }

  /** Every column openpyxl can address has a column label that reads back as that column. */
  /** An upper-case label reads the same after strip() and upper(). */
  lemma LabelReadsAsItself(name: string)
    requires 1 <= |name| && AllUpper(name)
    ensures Upper(Strip(name)) == name
  {
    assert !IsSpace(name[0]) && !IsSpace(name[|name| - 1]);
    StripNoSpaceEnds(name);
    assert Upper(name) == name;
  }

  lemma ColumnLabelRoundTrip(n: nat)
    requires 1 <= n <= MaxColumn
    ensures ColumnIndex(ColumnLabel(n)) == Some(n)
  {
    ColumnLabelValue(n);
  }

  /** And every upper-case column label of one to three letters is the label of its own index. */
  lemma {:induction false} ColumnIndexRoundTrip(letters: string)
    requires AllUpper(letters) && 1 <= |letters| <= 3
    ensures ColumnIndex(letters).Some? && ColumnLabel(ColumnIndex(letters).value) == letters
  {
    assert AllLetters(letters);
    LettersValueBounds(letters);
    LabelOfLetters(letters);
  }

  lemma {:induction false} LabelOfLetters(letters: string)
    requires AllUpper(letters) && 1 <= |letters|
    ensures AllLetters(letters) && LettersValue(letters) >= 1 && ColumnLabel(LettersValue(letters)) == letters
  {
    assert AllLetters(letters);
    var init := letters[..|letters| - 1];
    var last := letters[|letters| - 1];
    var d := LetterValue(last);
    LetterRoundTrip(last);
    if |letters| == 1 {
      assert init == [];
      assert [LetterFor(d)] == letters;
    } else {
      assert AllUpper(init);
      LabelOfLetters(init);
      var m := LettersValue(init);
      var n := LettersValue(letters);
      LabelStep(m, d, n);
      assert ColumnLabel(m) == init && LetterFor(d) == last;
      InitLast(letters);
      assert ColumnLabel(n) == letters;
    }
  }

  lemma LetterRoundTrip(c: char)
    requires 'A' <= c <= 'Z'
    ensures LetterFor(LetterValue(c)) == c
  {
  }

  /** The label of m * 26 + d is that of m followed by the letter of d. */
  lemma LabelStep(m: nat, d: nat, n: nat)
    requires m >= 1 && 1 <= d <= 26 && n == m * 26 + d
    ensures n >= 1 && ColumnLabel(n) == ColumnLabel(m) + [LetterFor(d)]
  {
    DigitStep(m, d);
  }

  /** Taking the last base-26 digit d back off m * 26 + d. */
  lemma DigitStep(m: nat, d: nat)
    requires 1 <= d <= 26
    ensures (m * 26 + d - 1) / 26 == m && (m * 26 + d - 1) % 26 + 1 == d
  {
  }

  /** The number of letters at the front of a string. */
  function LeadingLetters(s: string): (k: nat)
    ensures k <= |s| && AllLetters(s[..k])
    ensures k < |s| ==> !IsLetter(s[k])
  {
    if s != [] && IsLetter(s[0]) then
      var k := 1 + LeadingLetters(s[1..]);
      assert s[..k] == [s[0]] + s[1..][..k - 1];
      k
    else 0
  }

  /**
   * ws["CV26"]: an address is one to three letters followed by decimal digits
   * naming a row of at least 1; the result is (row, column), and None where
   * openpyxl raises.
   */
  function ParseCoordinate(address: string): (r: Option<(int, int)>)
    ensures r.Some? ==> r.value.0 >= 1 && 1 <= r.value.1 <= MaxColumn
  {
    var k := LeadingLetters(address);
    var digits := address[k..];
    if 1 <= k <= 3 && digits != [] && AllDigits(digits) && DigitsValue(digits) >= 1 then
      LettersValueBounds(address[..k]);
      Some((DigitsValue(digits) as int, LettersValue(address[..k]) as int))
    else None
  }

  lemma {:induction false} LeadingLettersAppend(a: string, b: string)
    requires AllLetters(a)
    requires b == [] || !IsLetter(b[0])
    ensures LeadingLetters(a + b) == |a|
  {
    if a != [] {
      assert (a + b)[1..] == a[1..] + b;
      LeadingLettersAppend(a[1..], b);
    }
  }

  /**
   * The address the forward scans build as f"{letters}{row}": for a column label of
   * one to three letters it names that label's column and the given row, and
   * it fails exactly when the row is below 1.
   */
  lemma AddressOfLabel(letters: string, row: int)
    requires 1 <= |letters| <= 3 && AllLetters(letters)
    ensures ParseCoordinate(letters + IntToString(row)) ==
            if row >= 1 then Some((row, LettersValue(letters) as int)) else None
  {
    var t := IntToString(row);
    var a := letters + t;
    IntToStringDigits(row);
    LeadingLettersAppend(letters, t);
    assert a[|letters|..] == t && a[..|letters|] == letters;
    if row >= 0 {
      NatToStringValue(row);
    } else {
      assert !IsDigit(t[0]);
    }
  }
}
