/**
 * The textual cell ranges the merge scripts take ("CV26:DM205"):
 * parse_range, which every merge script defines identically, and the ':'
 * check that get_user_input applies before a range is accepted.
 */
module RangeSpecs {
  import opened Results
  import opened Text

  /** parse_range's four-tuple (start column, start row, end column, end row). */
  datatype RangeSpec = RangeSpec(startCol: string, startRow: int, endCol: string, endRow: int)

  /** One endpoint: its first two characters are the column, int() of the rest is the row. */
  function ParseEndpoint(e: string): Option<(string, int)>
  {
    var k := if |e| < 2 then |e| else 2;
    match ParseInt(e[k..])
    case None => None
    case Some(n) => Some((e[..k], n))
  }

  /** parse_range: Err where Python raises ValueError (a split that does not unpack into two, or a row that int() rejects). */
  function ParseRange(text: string): Result<RangeSpec>
  {
    var parts := Split(text, ':');
    if |parts| != 2 then Err("range must contain exactly one ':'")
    else
      match ParseEndpoint(parts[0])
      case None => Err("start row is not an integer")
      case Some(start) =>
        match ParseEndpoint(parts[1])
        case None => Err("end row is not an integer")
        case Some(end) => Ok(RangeSpec(start.0, start.1, end.0, end.1))
  }

  /** The text a range is written as: both columns followed by their rows, joined by ':'. */
  function FormatRange(r: RangeSpec): string
  {
    r.startCol + IntToString(r.startRow) + ":" + r.endCol + IntToString(r.endRow)
  }

  /** A range is parsed only when its text holds exactly one ':'. */
  lemma ParseRangeNeedsOneColon(text: string)
    ensures ParseRange(text).Ok? ==> Count(text, ':') == 1
  {
  }

  lemma {:induction false} SplitWithoutSeparator(s: string, sep: char)
    requires sep !in s
    ensures Split(s, sep) == [s]
  {
    if s != [] {
      SplitWithoutSeparator(s[..|s| - 1], sep);
      assert s[..|s| - 1] + [s[|s| - 1]] == s;
    }
  }

  lemma {:induction false} SplitAtSeparator(a: string, b: string, sep: char)
    requires sep !in b
    ensures Split(a + [sep] + b, sep) == Split(a, sep) + [b]
  {
    if b == [] {
      assert a + [sep] + b == a + [sep];
      assert (a + [sep])[..|a|] == a;
    } else {
      var b' := b[..|b| - 1];
      var s := a + [sep] + b;
      assert s[..|s| - 1] == a + [sep] + b';
      SplitAtSeparator(a, b', sep);
      assert b' + [b[|b| - 1]] == b;
    }
  }

  lemma NoColonInNumber(n: int)
    ensures ':' !in IntToString(n)
  {
    IntToStringDigits(n);
  }

  lemma EndpointOfTwoLetters(col: string, row: int)
    requires |col| == 2
    ensures ParseEndpoint(col + IntToString(row)) == Some((col, row))
  {
    var e := col + IntToString(row);
    assert e[..2] == col && e[2..] == IntToString(row);
    IntToStringRoundTrip(row);
  }

  /**
   * parse_range reads back every range whose columns are written with
   * exactly two characters (none of them ':'), whatever its rows.
   */
  lemma ParseRangeRoundTrip(r: RangeSpec)
    requires |r.startCol| == 2 && |r.endCol| == 2
    requires ':' !in r.startCol && ':' !in r.endCol
    ensures ParseRange(FormatRange(r)) == Ok(r)
  {
    var a := r.startCol + IntToString(r.startRow);
    var b := r.endCol + IntToString(r.endRow);
    NoColonInNumber(r.startRow);
    NoColonInNumber(r.endRow);
    assert ':' !in a && ':' !in b;
    assert FormatRange(r) == a + [':'] + b;
    SplitInTwo(a, b);
    EndpointOfTwoLetters(r.startCol, r.startRow);
    EndpointOfTwoLetters(r.endCol, r.endRow);
  }

  lemma EndpointDigits(col: string, digits: string)
    requires |col| == 2 && digits != [] && AllDigits(digits)
    ensures ParseEndpoint(col + digits) == Some((col, DigitsValue(digits) as int))
  {
    var e := col + digits;
    assert e[..2] == col && e[2..] == digits;
    StripNoSpaceEnds(digits);
  }

  lemma DecimalExamples()
    ensures IntToString(26) == "26" && IntToString(205) == "205"
  {
    assert NatToString(26) == NatToString(2) + [DigitChar(6)];
    assert NatToString(205) == NatToString(20) + [DigitChar(5)];
    assert NatToString(20) == NatToString(2) + [DigitChar(0)];
  }

  /** The default range of the OLE task: "CV26:DM205" is ("CV", 26, "DM", 205). */
  lemma ParseRangeExample(text: string, r: RangeSpec)
    requires text == "CV26:DM205" && r == RangeSpec("CV", 26, "DM", 205)
    ensures ParseRange(text) == Ok(r)
  {
    DecimalExamples();
    assert FormatRange(r) == text;
    ParseRangeRoundTrip(r);
  }

  /**
   * A one-letter column is mis-split: the first digit of the row becomes
   * the second character of the column, so "A10:B20" is column "A1", row 0
   * to column "B2", row 0.
   */
  lemma OneLetterColumnMisSplit(x: char, rx: string, y: char, ry: string)
    requires x != ':' && y != ':'
    requires |rx| >= 2 && AllDigits(rx) && |ry| >= 2 && AllDigits(ry)
    ensures ParseRange([x] + rx + ":" + [y] + ry) ==
            Ok(RangeSpec([x, rx[0]], DigitsValue(rx[1..]), [y, ry[0]], DigitsValue(ry[1..])))
  {
    var a := [x] + rx;
    var b := [y] + ry;
    DigitsHaveNoColon(rx);
    DigitsHaveNoColon(ry);
    assert [x] + rx + ":" + [y] + ry == a + [':'] + b;
    SplitInTwo(a, b);
    assert a == [x, rx[0]] + rx[1..];
    EndpointDigits([x, rx[0]], rx[1..]);
    assert b == [y, ry[0]] + ry[1..];
    EndpointDigits([y, ry[0]], ry[1..]);
  }

  lemma DigitsHaveNoColon(s: string)
    requires AllDigits(s)
    ensures ':' !in s
  {
    assert forall i :: 0 <= i < |s| ==> IsDigit(s[i]);
  }

  /** A text with one ':' splits into the parts before and after it. */
  lemma SplitInTwo(a: string, b: string)
    requires ':' !in a && ':' !in b
    ensures Split(a + [':'] + b, ':') == [a, b]
  {
    SplitAtSeparator(a, b, ':');
    SplitWithoutSeparator(a, ':');
  }

  /** ... and a one-letter column with a one-digit row ("A1:B2") leaves int() nothing to read, so it raises. */
  lemma OneLetterOneDigitRaises(x: char, d: char, rest: string)
    requires x != ':' && IsDigit(d) && ':' !in rest
    ensures ParseRange([x, d, ':'] + rest).Err?
  {
    var a := [x, d];
    assert ':' !in a by {
      assert a[0] == x && a[1] == d;
    }
    assert [x, d, ':'] + rest == a + [':'] + rest;
    SplitInTwo(a, rest);
    assert a[2..] == "";
    assert Strip("") == "";
    assert ParseEndpoint(a).None?;
  }

  /** get_user_input's test of one answered dialog: present, non-empty and containing ':'. */
  predicate AcceptRange(answer: Option<string>)
  {
    answer.Some? && answer.value != "" && ':' in answer.value
  }

  /**
   * get_user_input in OLE-finalv2.py and OLE2in1.py: the process range is
   * checked first (the criteria dialog is not reached when it fails); either
   * failing gives (None, None) and the task is skipped.
   */
  function AskTaskRanges(process: Option<string>, criteria: Option<string>): (r: Option<(string, string)>)
    ensures r.Some? <==> AcceptRange(process) && AcceptRange(criteria)
    ensures r.Some? ==> r.value == (process.value, criteria.value)
  {
    if !AcceptRange(process) then None
    else if !AcceptRange(criteria) then None
    else Some((process.value, criteria.value))
  }

  /** get_user_input in ole3.py and ole4.py: a folder (askdirectory gives "" when cancelled) and two ranges. */
  function AskFolderAndRanges(folder: string, process: Option<string>, criteria: Option<string>): (r: Option<(string, string, string)>)
    ensures r.Some? <==> folder != "" && AcceptRange(process) && AcceptRange(criteria)
    ensures r.Some? ==> r.value == (folder, process.value, criteria.value)
  {
    if folder == "" then None
    else if !AcceptRange(process) then None
    else if !AcceptRange(criteria) then None
    else Some((folder, process.value, criteria.value))
  }

  /** get_user_input in ole2425.py: a folder and the process range only. */
  function AskFolderAndRange(folder: string, process: Option<string>): (r: Option<(string, string)>)
    ensures r.Some? <==> folder != "" && AcceptRange(process)
    ensures r.Some? ==> r.value == (folder, process.value)
  {
    if folder == "" then None
    else if !AcceptRange(process) then None
    else Some((folder, process.value))
  }

  lemma {:induction false} CountPositive(s: string, c: char)
    requires Count(s, c) > 0
    ensures c in s
  {
    if s[|s| - 1] != c {
      CountPositive(s[..|s| - 1], c);
    }
  }

  /**
   * The ':' check admits every range parse_range accepts, but not only
   * those: "A:B" passes the check and still fails to parse.
   */
  lemma ColonCheckIsWeakerThanParsing(text: string)
    ensures ParseRange(text).Ok? ==> AcceptRange(Some(text))
    ensures AcceptRange(Some("A:B")) && ParseRange("A:B").Err?
  {
    if ParseRange(text).Ok? {
      CountPositive(text, ':');
    }
    assert "A:B" == "A" + [':'] + "B";
    SplitAtSeparator("A", "B", ':');
    SplitWithoutSeparator("A", ':');
    assert "A"[1..] == "";
  }
}
