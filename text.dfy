/**
 * The pieces of Python's string handling that the scripts rely on:
 * str() of an integer, int() of a string, str.strip(), str.lower(),
 * str.split() and str.join(), endswith/startswith.
 */
module Text {
  import opened Results

  predicate IsDigit(c: char) { '0' <= c <= '9' }

  predicate AllDigits(s: string) { forall i :: 0 <= i < |s| ==> IsDigit(s[i]) }

  function DigitValue(c: char): nat
    requires IsDigit(c)
  {
    (c as int) - ('0' as int)
  }

  function DigitChar(d: nat): (c: char)
    requires d < 10
    ensures IsDigit(c) && DigitValue(c) == d
  {
    (('0' as int) + d) as char
  }

  /** The decimal digits of a string of digits, read most significant first. */
  function DigitsValue(s: string): nat
    requires AllDigits(s)
  {
    if s == [] then 0 else DigitsValue(s[..|s| - 1]) * 10 + DigitValue(s[|s| - 1])
  }

  /** Python's str() of a non-negative int: no sign, no leading zero. */
  function NatToString(n: nat): string
  {
    if n < 10 then [DigitChar(n)] else NatToString(n / 10) + [DigitChar(n % 10)]
  }

  /** str() of a natural number is a non-empty string of digits without a leading zero. */
  lemma {:induction false} NatToStringDigits(n: nat)
    ensures |NatToString(n)| >= 1 && AllDigits(NatToString(n))
    ensures |NatToString(n)| > 1 ==> NatToString(n)[0] != '0'
  {
    if n >= 10 {
      NatToStringDigits(n / 10);
    }
  }

  /** Python's str() of an int. */
  function IntToString(n: int): string
  {
    if n < 0 then "-" + NatToString(-n) else NatToString(n)
  }

  /** str() of an int is digits, preceded by '-' exactly when it is negative. */
  lemma IntToStringDigits(n: int)
    ensures |IntToString(n)| >= 1
    ensures n >= 0 ==> AllDigits(IntToString(n))
    ensures n < 0 ==> IntToString(n)[0] == '-' && AllDigits(IntToString(n)[1..])
  {
    NatToStringDigits(if n < 0 then -n else n);
    if n < 0 {
      assert IntToString(n)[1..] == NatToString(-n);
    }
  }

  lemma {:induction false} NatToStringValue(n: nat)
    ensures AllDigits(NatToString(n)) && DigitsValue(NatToString(n)) == n
  {
    NatToStringDigits(n);
    if n >= 10 {
      var s := NatToString(n);
      NatToStringValue(n / 10);
      assert s[..|s| - 1] == NatToString(n / 10);
    }
  }

  /** The characters for which Python's str.isspace() holds. */
  predicate IsSpace(c: char)
  {
    var n := c as int;
    || 9 <= n <= 13 || 0x1C <= n <= 0x20 || n == 0x85 || n == 0xA0 || n == 0x1680
    || 0x2000 <= n <= 0x200A || n == 0x2028 || n == 0x2029 || n == 0x202F
    || n == 0x205F || n == 0x3000
  }

  function TrimLeft(s: string): (r: string)
    ensures |r| <= |s| && r == s[|s| - |r|..]
    ensures r != [] ==> !IsSpace(r[0])
    ensures forall i :: 0 <= i < |s| - |r| ==> IsSpace(s[i])
  {
    if s != [] && IsSpace(s[0]) then TrimLeft(s[1..]) else s
  }

  function TrimRight(s: string): (r: string)
    ensures |r| <= |s| && r == s[..|r|]
    ensures r != [] ==> !IsSpace(r[|r| - 1])
    ensures forall i :: |r| <= i < |s| ==> IsSpace(s[i])
  {
    if s != [] && IsSpace(s[|s| - 1]) then TrimRight(s[..|s| - 1]) else s
  }

  /** Every character of s is whitespace. */
  predicate AllSpace(s: string)
  {
    forall i :: 0 <= i < |s| ==> IsSpace(s[i])
  }

  lemma AllSpaceAppend(a: string, b: string)
    requires AllSpace(a) && AllSpace(b)
    ensures AllSpace(a + b)
  {
    forall i | 0 <= i < |a + b|
      ensures IsSpace((a + b)[i])
    {
      if i >= |a| {
        assert (a + b)[i] == b[i - |a|];
      }
    }
  }

  /** s is empty or neither starts nor ends with whitespace. */
  predicate NoSpaceEnds(s: string)
  {
    s != [] ==> !IsSpace(s[0]) && !IsSpace(s[|s| - 1])
  }

  /** s is r with whitespace before and after it, r starting at index i of s. */
  predicate PaddedAt(s: string, r: string, i: nat)
  {
    i + |r| <= |s| && s[i..i + |r|] == r && AllSpace(s[..i]) && AllSpace(s[i + |r|..])
  }

  /** s is r with whitespace before and after it. */
  ghost predicate Padded(s: string, r: string)
  {
    exists i: nat :: PaddedAt(s, r, i)
  }

  /** Python's str.strip() with no argument: s without its leading and trailing whitespace. */
  function Strip(s: string): (r: string)
    ensures NoSpaceEnds(r) && Padded(s, r)
    ensures |r| <= |s|
  {
    TrimBothPadded(s);
    TrimRight(TrimLeft(s))
  }

  lemma TrimBothPadded(s: string)
    ensures Padded(s, TrimRight(TrimLeft(s)))
  {
    var t := TrimLeft(s);
    var r := TrimRight(t);
    TrimLeftSpaces(s);
    TrimRightSpaces(t);
    PaddedFromTrims(s, t, r);
  }

  /** A text, its suffix t after leading whitespace, and t's prefix r before trailing whitespace. */
  lemma PaddedFromTrims(s: string, t: string, r: string)
    requires |t| <= |s| && t == s[|s| - |t|..] && AllSpace(s[..|s| - |t|])
    requires |r| <= |t| && r == t[..|r|] && AllSpace(t[|r|..])
    ensures PaddedAt(s, r, |s| - |t|)
  {
    SliceOfSuffix(s, |s| - |t|, |r|);
  }

  lemma TrimLeftSpaces(s: string)
    ensures AllSpace(s[..|s| - |TrimLeft(s)|])
  {
    var p := s[..|s| - |TrimLeft(s)|];
    forall k | 0 <= k < |p|
      ensures IsSpace(p[k])
    {
      assert p[k] == s[k];
    }
  }

  lemma TrimRightSpaces(t: string)
    ensures AllSpace(t[|TrimRight(t)|..])
  {
    var n := |TrimRight(t)|;
    var q := t[n..];
    forall k | 0 <= k < |q|
      ensures IsSpace(q[k])
    {
      assert q[k] == t[n + k];
    }
  }

  lemma SliceOfSuffix<T>(s: seq<T>, i: nat, m: nat)
    requires i + m <= |s|
    ensures s[i..][..m] == s[i..i + m] && s[i..][m..] == s[i + m..]
  {
  }

  /** A padded text is its core with the whitespace before it and after it. */
  lemma PaddedParts(s: string, r: string, i: nat)
    requires PaddedAt(s, r, i)
    ensures s == s[..i] + r + s[i + |r|..]
  {
    assert s == s[..i] + s[i..i + |r|] + s[i + |r|..];
  }

  lemma {:induction false} TrimLeftPadded(a: string, t: string)
    requires AllSpace(a) && (t == [] || !IsSpace(t[0]))
    ensures TrimLeft(a + t) == t
    decreases |a|
  {
    if a == [] {
      assert a + t == t;
    } else {
      assert (a + t)[0] == a[0] && (a + t)[1..] == a[1..] + t;
      TrimLeftPadded(a[1..], t);
    }
  }

  lemma {:induction false} TrimRightPadded(t: string, b: string)
    requires AllSpace(b) && (t == [] || !IsSpace(t[|t| - 1]))
    ensures TrimRight(t + b) == t
    decreases |b|
  {
    if b == [] {
      assert t + b == t;
    } else {
      var s := t + b;
      assert s[|s| - 1] == b[|b| - 1] && s[..|s| - 1] == t + b[..|b| - 1];
      TrimRightPadded(t, b[..|b| - 1]);
    }
  }

  /** strip() removes exactly the surrounding whitespace: it gives back any s with no whitespace at its ends, however it is padded. */
  lemma StripSurrounded(a: string, s: string, b: string)
    requires AllSpace(a) && AllSpace(b) && NoSpaceEnds(s)
    ensures Strip(a + s + b) == s
  {
    assert a + s + b == a + (s + b);
    if s == [] {
      assert s + b == b;
      TrimLeftPadded(a + b, []);
      assert a + b + [] == a + b;
    } else {
      assert (s + b)[0] == s[0];
      TrimLeftPadded(a, s + b);
      TrimRightPadded(s, b);
    }
  }

  /** Padding and case vanish under strip() then upper(): the padded text t reads as s when both upper-case alike. */
  lemma StripUpperAlike(a: string, s: string, t: string, b: string)
    requires AllSpace(a) && AllSpace(b) && NoSpaceEnds(s) && NoSpaceEnds(t) && Upper(s) == Upper(t)
    ensures Upper(Strip(a + t + b)) == Upper(Strip(s))
  {
    StripSurrounded(a, t, b);
    StripSurrounded([], s, []);
    assert [] + s + [] == s;
  }

  lemma StripNoSpaceEnds(s: string)
    requires s != [] && !IsSpace(s[0]) && !IsSpace(s[|s| - 1])
    ensures Strip(s) == s
  {
    StripSurrounded([], s, []);
    assert [] + s + [] == s;
  }

  /** Python's int() of a string: surrounding whitespace, an optional sign, decimal digits. */
  function ParseInt(s: string): (r: Option<int>)
    ensures r.Some? ==> Strip(s) != []
  {
    var t := Strip(s);
    if t == [] then None
    else if t[0] == '-' || t[0] == '+' then
      var d := t[1..];
      if d != [] && AllDigits(d) then Some(if t[0] == '-' then -(DigitsValue(d) as int) else DigitsValue(d)) else None
    else if AllDigits(t) then Some(DigitsValue(t))
    else None
  }

  /** int(str(n)) == n: the decimal rendering of an integer reads back as the integer. */
  lemma IntToStringRoundTrip(n: int)
    ensures ParseInt(IntToString(n)) == Some(n)
  {
    if n < 0 {
      var d := NatToString(-n);
      NatToStringValue(-n);
      assert d != [] && AllDigits(d) && DigitsValue(d) == -n;
      assert IntToString(n) == "-" + d;
      ParseIntNegative(d);
    } else {
      var d := NatToString(n);
      NatToStringValue(n);
      assert d != [] && AllDigits(d) && DigitsValue(d) == n;
      assert IntToString(n) == d;
      ParseIntPlain(d);
    }
  }

  lemma ParseIntPlain(d: string)
    requires d != [] && AllDigits(d)
    ensures ParseInt(d) == Some(DigitsValue(d) as int)
  {
    assert IsDigit(d[0]) && IsDigit(d[|d| - 1]);
    StripNoSpaceEnds(d);
  }

  lemma ParseIntNegative(d: string)
    requires d != [] && AllDigits(d)
    ensures ParseInt("-" + d) == Some(-(DigitsValue(d) as int))
  {
    var s := "-" + d;
    assert s[1..] == d && s[0] == '-';
    assert IsDigit(d[|d| - 1]) && s[|s| - 1] == d[|d| - 1];
    StripNoSpaceEnds(s);
  }

  /** Python's str.lower() restricted to ASCII letters. */
  function LowerChar(c: char): (d: char)
    ensures !('A' <= d <= 'Z')
    ensures !('A' <= c <= 'Z') ==> d == c
  {
    if 'A' <= c <= 'Z' then (c as int + 32) as char else c
  }

  function Lower(s: string): (r: string)
    ensures |r| == |s| && forall i :: 0 <= i < |s| ==> r[i] == LowerChar(s[i])
  {
    seq(|s|, i requires 0 <= i < |s| => LowerChar(s[i]))
  }

  lemma LowerAppend(x: string, y: string)
    ensures Lower(x + y) == Lower(x) + Lower(y)
  {
    assert forall i :: 0 <= i < |x + y| ==> Lower(x + y)[i] == (Lower(x) + Lower(y))[i];
  }

  lemma LowerCharSpace(c: char)
    ensures IsSpace(LowerChar(c)) == IsSpace(c)
  {
  }

  lemma LowerAllSpace(a: string)
    requires AllSpace(a)
    ensures AllSpace(Lower(a))
  {
    forall i | 0 <= i < |a|
      ensures IsSpace(Lower(a)[i])
    {
      LowerCharSpace(a[i]);
    }
  }

  lemma LowerNoSpaceEnds(r: string)
    requires NoSpaceEnds(r)
    ensures NoSpaceEnds(Lower(r))
  {
    if r != [] {
      LowerCharSpace(r[0]);
      LowerCharSpace(r[|r| - 1]);
    }
  }

  /** Whitespace added around a text does not change what strip() gives. */
  lemma StripPadding(a: string, s: string, b: string)
    requires AllSpace(a) && AllSpace(b)
    ensures Strip(a + s + b) == Strip(s)
  {
    var r := Strip(s);
    var i: nat :| PaddedAt(s, r, i);
    PaddedParts(s, r, i);
    var p, q := s[..i], s[i + |r|..];
    Regroup(a, p, r, q, b);
    AllSpaceAppend(a, p);
    AllSpaceAppend(q, b);
    StripSurrounded(a + p, r, q + b);
  }

  lemma Regroup<T>(a: seq<T>, p: seq<T>, r: seq<T>, q: seq<T>, b: seq<T>)
    ensures a + (p + r + q) + b == (a + p) + r + (q + b)
  {
  }

  /** Lower-casing keeps whitespace where it is, so it commutes with strip(). */
  lemma StripLower(s: string)
    ensures Strip(Lower(s)) == Lower(Strip(s))
  {
    var r := Strip(s);
    var i: nat :| PaddedAt(s, r, i);
    PaddedParts(s, r, i);
    var a, b := s[..i], s[i + |r|..];
    LowerAppend(a + r, b);
    LowerAppend(a, r);
    LowerAllSpace(a);
    LowerAllSpace(b);
    LowerNoSpaceEnds(r);
    StripSurrounded(Lower(a), Lower(r), Lower(b));
  }

  /** s holds no upper-case ASCII letter. */
  predicate NoUpper(s: string)
  {
    forall i :: 0 <= i < |s| ==> !('A' <= s[i] <= 'Z')
  }

  /** Python's str.upper() restricted to ASCII letters. */
  function UpperChar(c: char): (d: char)
    ensures !('a' <= d <= 'z')
    ensures !('a' <= c <= 'z') ==> d == c
  {
    if 'a' <= c <= 'z' then (c as int - 32) as char else c
  }

  function Upper(s: string): (r: string)
    ensures |r| == |s| && forall i :: 0 <= i < |s| ==> r[i] == UpperChar(s[i])
  {
    seq(|s|, i requires 0 <= i < |s| => UpperChar(s[i]))
  }

  predicate StartsWith(s: string, prefix: string) { |prefix| <= |s| && s[..|prefix|] == prefix }

  predicate EndsWith(s: string, suffix: string) { |suffix| <= |s| && s[|s| - |suffix|..] == suffix }

  /** a + b + c starts with a and ends with b + c. */
  lemma ConcatAffixes(a: string, b: string, c: string)
    ensures StartsWith(a + b + c, a) && EndsWith(a + b + c, b + c)
  {
    var joined := a + b + c;
    assert joined == a + (b + c);
    assert joined[..|a|] == a;
    assert joined[|joined| - |b + c|..] == b + c;
  }

  function Count(s: string, c: char): nat
  {
    if s == [] then 0 else Count(s[..|s| - 1], c) + (if s[|s| - 1] == c then 1 else 0)
  }

  /** Python's str.split(sep) for a one-character separator. */
  function Split(s: string, sep: char): (parts: seq<string>)
    ensures |parts| == Count(s, sep) + 1
    ensures forall i :: 0 <= i < |parts| ==> sep !in parts[i]
  {
    if s == [] then [""]
    else
      var init := Split(s[..|s| - 1], sep);
      if s[|s| - 1] == sep then init + [""]
      else init[..|init| - 1] + [init[|init| - 1] + [s[|s| - 1]]]
  }

  /** Python's sep.join(parts). */
  function Join(parts: seq<string>, sep: string): string
  {
    if parts == [] then ""
    else if |parts| == 1 then parts[0]
    else Join(parts[..|parts| - 1], sep) + sep + parts[|parts| - 1]
  }

  /** Joining the pieces of a split with the separator gives back the original string. */
  lemma {:induction false} SplitJoin(s: string, sep: char)
    ensures Join(Split(s, sep), [sep]) == s
  {
    if s != [] {
      var init := Split(s[..|s| - 1], sep);
      var c := s[|s| - 1];
      SplitJoin(s[..|s| - 1], sep);
      if c == sep {
        JoinAppendEmpty(init, [sep]);
      } else {
        JoinExtendLast(init, [sep], c);
      }
      InitLast(s);
    }
  }

  /** A trailing empty part adds one separator. */
  lemma JoinAppendEmpty(parts: seq<string>, sep: string)
    requires |parts| >= 1
    ensures Join(parts + [""], sep) == Join(parts, sep) + sep
  {
    assert (parts + [""])[..|parts|] == parts;
  }

  /** Extending the last part by one character extends the join by it. */
  lemma {:induction false} JoinExtendLast(parts: seq<string>, sep: string, c: char)
    requires |parts| >= 1
    ensures Join(parts[..|parts| - 1] + [parts[|parts| - 1] + [c]], sep) == Join(parts, sep) + [c]
  {
    var front := parts[..|parts| - 1];
    var q := front + [parts[|parts| - 1] + [c]];
    assert q[..|q| - 1] == front;
  }

  lemma InitLast<T>(s: seq<T>)
    requires |s| > 0
    ensures s[..|s| - 1] + [s[|s| - 1]] == s
  {
  }
}
