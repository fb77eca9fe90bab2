/**
 * GSASIIpath.intver and GSASIIpath.fmtver: the encoding of a version string
 * 'a.b[.c...]' as the integer 1000 * a + b, and its decoding back to 'a.b'.
 * Python's int() is modelled on an optional sign followed by decimal digits;
 * floor division and remainder by 1000 agree with Dafny's for a positive
 * divisor.
 */
module VersionStrings {
  import opened Wrappers

  /** An ASCII decimal digit; the other Unicode decimal digits that int() accepts are not modelled. */
  predicate IsDigit(c: char) { '0' <= c <= '9' }

  predicate AllDigits(d: string)
  {
    forall i :: 0 <= i < |d| ==> IsDigit(d[i])
  }

  /** A decimal numeral as str() writes it: digits, and no leading zero unless it is "0". */
  predicate Canonical(d: string)
  {
    |d| > 0 && AllDigits(d) && (|d| == 1 || d[0] != '0')
  }

  function DigitChar(k: nat): char
    requires k < 10
  {
    ['0', '1', '2', '3', '4', '5', '6', '7', '8', '9'][k]
  }

  function DigitOf(c: char): (k: nat)
    requires IsDigit(c)
    ensures k < 10
  {
    (c as int - '0' as int) as nat
  }

  lemma DigitRoundTrip(k: nat, c: char)
    requires k < 10 && IsDigit(c)
    ensures DigitOf(DigitChar(k)) == k && IsDigit(DigitChar(k))
    ensures DigitChar(DigitOf(c)) == c
    ensures DigitChar(k) != '.' && DigitChar(k) != '-'
  {
  }

  /** The value of a string of decimal digits, most significant first. */
  function DigitsValue(d: string): nat
    requires AllDigits(d)
  {
    if |d| == 0 then 0 else DigitsValue(d[..|d| - 1]) * 10 + DigitOf(d[|d| - 1])
  }

  /** str(n) for n >= 0. */
  function ShowNat(n: nat): (s: string)
    ensures Canonical(s)
  {
    if n < 10 then
      DigitRoundTrip(n, '0');
      [DigitChar(n)]
    else
      DigitRoundTrip(n % 10, '0');
      ShowNat(n / 10) + [DigitChar(n % 10)]
  }

  /** str(i) for any whole number. */
  function ShowInt(i: int): string
  {
    if i < 0 then "-" + ShowNat(-i) else ShowNat(i)
  }

  /** int(s): an optional sign, then at least one ASCII digit; anything else is the ValueError. */
  function ParseInt(s: string): (r: Option<int>)
  {
    if |s| > 0 && (s[0] == '-' || s[0] == '+') then
      if |s| > 1 && AllDigits(s[1..]) then
        var v: int := DigitsValue(s[1..]);
        Some(if s[0] == '-' then -v else v)
      else None
    else if |s| > 0 && AllDigits(s) then Some(DigitsValue(s))
    else None
  }

  /** s.split(sep): the pieces between the separators, at least one. */
  function Split(s: string, sep: char): (r: seq<string>)
    ensures |r| >= 1
  {
    if |s| == 0 then [""]
    else
      var rest := Split(s[1..], sep);
      if s[0] == sep then [""] + rest else [[s[0]] + rest[0]] + rest[1..]
  }

  /** Splitting at the first separator: a piece free of separators comes out whole. */
  lemma {:induction false} SplitFirst(a: string, sep: char, t: string)
    requires sep !in a
    ensures Split(a + [sep] + t, sep) == [a] + Split(t, sep)
    ensures Split(a, sep) == [a]
  {
    if |a| > 0 {
      SplitFirst(a[1..], sep, t);
      assert (a + [sep] + t)[1..] == a[1..] + [sep] + t;
      assert [a[0]] + a[1..] == a;
    } else {
      assert a + [sep] + t == [sep] + t;
    }
  }

  /**
   * intver(vs): 1000 * a + b for the first two dot-separated components; a
   * string without a dot has one component, which numpy broadcasts against
   * (1000, 1), giving 1001 * a.
   */
  function IntVer(vs: string): (r: Option<int>)
  {
    var parts := Split(vs, '.');
    if |parts| == 1 then
      match ParseInt(parts[0])
      case None => None
      case Some(a) => Some(1001 * a)
    else
      match (ParseInt(parts[0]), ParseInt(parts[1]))
      case (Some(a), Some(b)) => Some(1000 * a + b)
      case _ => None
  }

  /** fmtver(v): str(v // 1000) + '.' + str(v % 1000). */
  function FmtVer(v: int): string
  {
    ShowInt(v / 1000) + "." + ShowNat(v % 1000)
  }

  /** The digits of str(n) have the value n. */
  lemma {:induction false} ValueOfShow(n: nat)
    ensures DigitsValue(ShowNat(n)) == n
  {
    if n < 10 {
      DigitRoundTrip(n, '0');
    } else {
      ValueOfShow(n / 10);
      DigitRoundTrip(n % 10, '0');
      var s := ShowNat(n);
      assert s[..|s| - 1] == ShowNat(n / 10);
    }
  }

  /** A canonical numeral with more than one digit is worth at least 10. */
  lemma {:induction false} LeadingDigitValue(d: string)
    requires Canonical(d)
    ensures |d| > 1 ==> DigitsValue(d) >= 10
    ensures |d| > 1 || DigitsValue(d) < 10
  {
    if |d| > 1 {
      var p := d[..|d| - 1];
      if |p| > 1 {
        LeadingDigitValue(p);
      } else {
        assert p[0] == d[0];
      }
    }
  }

  /** str(int(d)) == d for a numeral written without leading zeros. */
  lemma {:induction false} ShowOfValue(d: string)
    requires Canonical(d)
    ensures ShowNat(DigitsValue(d)) == d
  {
    var n := DigitsValue(d);
    LeadingDigitValue(d);
    DigitRoundTrip(0, d[|d| - 1]);
    if |d| > 1 {
      var p := d[..|d| - 1];
      assert p[0] == d[0];
      ShowOfValue(p);
      assert n / 10 == DigitsValue(p) && n % 10 == DigitOf(d[|d| - 1]);
      assert d == p + [d[|d| - 1]];
    }
  }

  /** int(str(n)) == n for n >= 0, and str(n) has no dot. */
  lemma ParseShowNat(n: nat)
    ensures ParseInt(ShowNat(n)) == Some(n)
    ensures '.' !in ShowNat(n)
  {
    var s := ShowNat(n);
    ValueOfShow(n);
    DigitsAreNotDots(s);
    assert IsDigit(s[0]);
  }

  /** int(str(i)) == i. */
  lemma ParseShow(i: int)
    ensures ParseInt(ShowInt(i)) == Some(i)
    ensures '.' !in ShowInt(i)
  {
    if i < 0 {
      var s := ShowNat(-i);
      ValueOfShow(-i);
      DigitsAreNotDots(s);
      var t := "-" + s;
      assert ShowInt(i) == t;
      assert t[0] == '-' && t[1..] == s;
      assert ParseInt(t) == Some(-(DigitsValue(s) as int));
    } else {
      ParseShowNat(i);
    }
  }

  /** Floor division by 1000 undoes 1000 * q + r for 0 <= r < 1000. */
  lemma ThousandsDivMod(q: int, r: int)
    requires 0 <= r < 1000
    ensures (1000 * q + r) / 1000 == q && (1000 * q + r) % 1000 == r
  {
    var v := 1000 * q + r;
    var d, m := v / 1000, v % 1000;
    assert v == 1000 * d + m && 0 <= m < 1000;
    assert 1000 * (q - d) == m - r;
  }

  /** Decoding then encoding: every whole number survives intver(fmtver(v)). */
  lemma IntVerOfFmtVer(v: int)
    ensures IntVer(FmtVer(v)) == Some(v)
  {
    var q, r := v / 1000, v % 1000;
    ParseShow(q);
    ParseShow(r);
    SplitFirst(ShowInt(q), '.', ShowNat(r));
    SplitFirst(ShowNat(r), '.', "");
    assert ShowNat(r) + "" == ShowNat(r);
    assert FmtVer(v) == ShowInt(q) + ['.'] + ShowNat(r);
  }

  /** The first two components of 'a.b' followed by nothing or by '.' and more are a and b. */
  lemma SplitPair(a: string, b: string, rest: string)
    requires AllDigits(a) && AllDigits(b)
    requires rest == [] || rest[0] == '.'
    ensures |Split(a + "." + b + rest, '.')| >= 2
    ensures Split(a + "." + b + rest, '.')[0] == a && Split(a + "." + b + rest, '.')[1] == b
  {
    DigitsAreNotDots(a);
    DigitsAreNotDots(b);
    assert a + "." + b + rest == a + ['.'] + (b + rest);
    SplitFirst(a, '.', b + rest);
    if rest == [] {
      assert b + rest == b;
      SplitFirst(b, '.', "");
    } else {
      assert b + rest == b + ['.'] + rest[1..];
      SplitFirst(b, '.', rest[1..]);
    }
  }

  /** int(d) for a numeral written without leading zeros is its value. */
  lemma ParseCanonical(d: string)
    requires Canonical(d)
    ensures ParseInt(d) == Some(DigitsValue(d))
  {
    assert IsDigit(d[0]);
  }

  /**
   * Encoding then decoding: 'a.b' followed by nothing or by further
   * dot-separated components, where the numerals a and b are written without
   * leading zeros and have the values q and r < 1000, encodes to 1000 * q + r
   * and decodes to 'a.b'.
   */
  lemma FmtVerOfIntVer(a: string, b: string, rest: string, q: nat, r: nat)
    requires Canonical(a) && Canonical(b) && q == DigitsValue(a) && r == DigitsValue(b) && r < 1000
    requires rest == [] || rest[0] == '.'
    ensures IntVer(a + "." + b + rest) == Some(1000 * q + r)
    ensures FmtVer(1000 * q + r) == a + "." + b
  {
    IntVerOfPair(a, b, rest, q, r);
    ShowValue(a, q);
    ShowValue(b, r);
    FmtVerParts(q, r, a, b);
  }

  lemma ShowValue(d: string, n: nat)
    requires Canonical(d) && n == DigitsValue(d)
    ensures ShowNat(n) == d
  {
    ShowOfValue(d);
  }

  lemma IntVerOfPair(a: string, b: string, rest: string, q: nat, r: nat)
    requires Canonical(a) && Canonical(b) && q == DigitsValue(a) && r == DigitsValue(b)
    requires rest == [] || rest[0] == '.'
    ensures IntVer(a + "." + b + rest) == Some(1000 * q + r)
  {
    var parts := Split(a + "." + b + rest, '.');
    SplitPair(a, b, rest);
    ParseCanonical(a);
    ParseCanonical(b);
    assert ParseInt(parts[0]) == Some(q) && ParseInt(parts[1]) == Some(r);
  }

  /** fmtver(1000 * q + r) writes q and r apart for q >= 0 and 0 <= r < 1000. */
  lemma FmtVerParts(q: nat, r: nat, a: string, b: string)
    requires r < 1000 && ShowNat(q) == a && ShowNat(r) == b
    ensures FmtVer(1000 * q + r) == a + "." + b
  {
    ThousandsDivMod(q, r);
  }

  /** A version string without a dot is one component, and numpy broadcasting counts it twice: '7' encodes to 7007. */
  lemma SingleComponent(a: string)
    requires Canonical(a)
    ensures IntVer(a) == Some(1001 * DigitsValue(a))
  {
    DigitsAreNotDots(a);
    SplitFirst(a, '.', "");
  }

  lemma DigitsAreNotDots(d: string)
    requires AllDigits(d)
    ensures '.' !in d
  {
  }
}
