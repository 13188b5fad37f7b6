/** The JavaScript string and number behaviour the frontend handlers rely on: whitespace
    trimming, parseInt with radix 10, number-to-string conversion, global one-character
    replacement, and thousands grouping with commas. */
module JsText {

  /** A JavaScript number as the handlers see it: an integer, or NaN from a failed parse. */
  datatype JsNumber = Num(value: int) | NaN

  predicate IsDigit(c: char) {
    '0' <= c <= '9'
  }

  predicate AllDigits(s: string) {
    forall i :: 0 <= i < |s| ==> IsDigit(s[i])
  }

  /** The WhiteSpace and LineTerminator characters of ECMAScript, which trim() and parseInt skip. */
  predicate IsSpace(c: char) {
    || c == ' ' || c == '\t' || c == '\n' || c == '\r' || c == '\U{000B}' || c == '\U{000C}'
    || c == '\U{00A0}' || c == '\U{1680}' || ('\U{2000}' <= c <= '\U{200A}')
    || c == '\U{2028}' || c == '\U{2029}' || c == '\U{202F}' || c == '\U{205F}' || c == '\U{3000}' || c == '\U{FEFF}'
  }

  lemma DigitIsNotSpace(c: char)
    requires IsDigit(c)
    ensures !IsSpace(c)
  {
  }

  predicate Blank(s: string) {
    forall i :: 0 <= i < |s| ==> IsSpace(s[i])
  }

  lemma BlankCons(c: char, u: string)
    requires IsSpace(c) && Blank(u)
    ensures Blank([c] + u)
  {
    var v := [c] + u;
    forall i | 0 <= i < |v| ensures IsSpace(v[i]) {
      if i > 0 { assert v[i] == u[i - 1]; }
    }
  }

  /** Skipping one more leading space keeps the trimmed rest a suffix after blank text. */
  lemma TrimStartStep(s: string, r: string)
    requires s != [] && IsSpace(s[0])
    requires |r| <= |s| - 1 && r == s[1..][|s| - 1 - |r|..] && Blank(s[1..][..|s| - 1 - |r|])
    ensures |r| <= |s| && r == s[|s| - |r|..] && Blank(s[..|s| - |r|])
  {
    var t := s[1..];
    assert s[|s| - |r|..] == t[|t| - |r|..];
    assert s[..|s| - |r|] == [s[0]] + t[..|t| - |r|];
    BlankCons(s[0], t[..|t| - |r|]);
  }

  function TrimStart(s: string): (r: string)
    ensures |r| <= |s| && r == s[|s| - |r|..]
    ensures r == [] || !IsSpace(r[0])
    ensures Blank(s[..|s| - |r|])
  {
    if s != [] && IsSpace(s[0]) then
      var t := s[1..];
      var r := TrimStart(t);
      TrimStartStep(s, r);
      r
    else s
  }

  function TrimEnd(s: string): (r: string)
    ensures |r| <= |s| && r == s[..|r|]
    ensures r == [] || !IsSpace(r[|r| - 1])
    ensures Blank(s[|r|..])
  {
    if s != [] && IsSpace(s[|s| - 1]) then
      var t := s[..|s| - 1];
      var r := TrimEnd(t);
      assert s[..|r|] == t[..|r|];
      assert s[|r|..] == t[|r|..] + [s[|s| - 1]];
      r
    else s
  }

  /** String.prototype.trim; the result is empty exactly when the string is all whitespace. */
  function Trim(s: string): (r: string)
    ensures r == "" <==> Blank(s)
  {
    TrimEnd(TrimStart(s))
  }

  lemma TrimStartKeeps(s: string)
    requires s != [] && !IsSpace(s[0])
    ensures TrimStart(s) == s
  {
  }

  function DigitChar(d: nat): (c: char)
    requires d < 10
    ensures IsDigit(c)
  {
    (('0' as int) + d) as char
  }

  function DigitValue(c: char): (d: nat)
    requires IsDigit(c)
    ensures d < 10 && DigitChar(d) == c
  {
    (c as int) - ('0' as int)
  }

  /** The decimal digits of `n`, without leading zeros. */
  function Decimal(n: nat): (s: string)
    ensures |s| > 0 && AllDigits(s)
    ensures |s| > 1 ==> s[0] != '0'
  {
    if n < 10 then [DigitChar(n)] else Decimal(n / 10) + [DigitChar(n % 10)]
  }

  /** The value of a string of decimal digits, read left to right. */
  function DigitsValue(s: string): nat
    requires AllDigits(s)
  {
    if s == [] then 0 else DigitsValue(s[..|s| - 1]) * 10 + DigitValue(s[|s| - 1])
  }

  lemma {:induction false} DecimalValue(n: nat)
    ensures DigitsValue(Decimal(n)) == n
  {
    if n >= 10 {
      var s := Decimal(n);
      assert s[..|s| - 1] == Decimal(n / 10);
      DecimalValue(n / 10);
    }
  }

  /** The longest prefix of `s` made of digits. */
  function LeadingDigits(s: string): (d: string)
    ensures AllDigits(d) && |d| <= |s| && d == s[..|d|]
    ensures |d| < |s| ==> !IsDigit(s[|d|])
  {
    if s != [] && IsDigit(s[0]) then [s[0]] + LeadingDigits(s[1..]) else []
  }

  /** parseInt(s, 10): skip leading whitespace, read an optional sign, then the longest run
      of digits; NaN when there is none. The rest of the string is ignored. */
  function ParseInt(s: string): (r: JsNumber)
    ensures Blank(s) ==> r == NaN
    ensures r.Num? ==> exists i :: 0 <= i < |s| && IsDigit(s[i])
  {
    var t := TrimStart(s);
    var r := ParseSigned(t);
    assert r.Num? ==> exists i :: 0 <= i < |s| && IsDigit(s[i]) by {
      if r.Num? {
        var j := if IsDigit(t[0]) then 0 else 1;
        assert IsDigit(t[j]) && t[j] == s[|s| - |t| + j];
      }
    }
    r
  }

  /** The part of parseInt after the whitespace: an optional sign and the leading digits. */
  function ParseSigned(t: string): (r: JsNumber)
    ensures r.Num? ==> |t| > 0 && (IsDigit(t[0]) || (|t| > 1 && (t[0] == '-' || t[0] == '+') && IsDigit(t[1])))
    ensures r.Num? && r.value < 0 ==> t[0] == '-'
    ensures |t| > 0 && IsDigit(t[0]) ==> r.Num? && r.value >= 0
  {
    var negative := |t| > 0 && t[0] == '-';
    var unsigned := if |t| > 0 && (t[0] == '-' || t[0] == '+') then t[1..] else t;
    var digits := LeadingDigits(unsigned);
    if digits == [] then NaN
    else if negative then Num(-(DigitsValue(digits) as int))
    else Num(DigitsValue(digits))
  }

  lemma {:induction false} LeadingDigitsOfDigits(s: string)
    requires AllDigits(s)
    ensures LeadingDigits(s) == s
  {
    if s != [] {
      LeadingDigitsOfDigits(s[1..]);
    }
  }

  /** Past the whitespace, a non-empty run of digits reads as its value. */
  lemma ParseSignedOfDigits(s: string)
    requires s != [] && AllDigits(s)
    ensures ParseSigned(s) == Num(DigitsValue(s))
  {
    assert IsDigit(s[0]);
    LeadingDigitsOfDigits(s);
  }

  /** A non-empty run of digits parses to its value. */
  lemma ParseIntOfDigits(s: string)
    requires s != [] && AllDigits(s)
    ensures ParseInt(s) == Num(DigitsValue(s))
  {
    assert IsDigit(s[0]);
    DigitIsNotSpace(s[0]);
    TrimStartKeeps(s);
    ParseSignedOfDigits(s);
  }

  /** A minus sign and a non-empty run of digits read as the negated value. */
  lemma ParseIntOfNegative(t: string)
    requires |t| > 1 && t[0] == '-' && AllDigits(t[1..])
    ensures ParseInt(t) == Num(-(DigitsValue(t[1..]) as int))
  {
    assert !IsSpace(t[0]);
    TrimStartKeeps(t);
    ParseSignedOfNegative(t);
  }

  /** Past the whitespace, a minus sign and a non-empty run of digits read as the negated value. */
  lemma ParseSignedOfNegative(t: string)
    requires |t| > 1 && t[0] == '-' && AllDigits(t[1..])
    ensures ParseSigned(t) == Num(-(DigitsValue(t[1..]) as int))
  {
    LeadingDigitsOfDigits(t[1..]);
  }

  /** String(x) for the numbers the handlers produce. */
  function NumberToString(x: JsNumber): (r: string)
    ensures x.Num? ==> r != [] && (r[0] == '-' <==> x.value < 0)
    ensures x.Num? ==> AllDigits(r[1..]) && (x.value >= 0 ==> AllDigits(r))
  {
    match x
    case NaN => "NaN"
    case Num(v) => if v < 0 then "-" + Decimal(-v) else Decimal(v)
  }

  lemma ParseIntOfNaN()
    ensures ParseInt("NaN") == NaN
  {
    TrimStartKeeps("NaN");
    assert LeadingDigits("NaN") == [];
  }

  lemma ParseIntOfNatString(v: nat)
    ensures ParseInt(Decimal(v)) == Num(v)
  {
    var d := Decimal(v);
    assert DigitsValue(d) == v by { DecimalValue(v); }
    assert d != [] && AllDigits(d);
    ParseIntOfDigits(d);
    assert ParseInt(d) == Num(DigitsValue(d));
  }

  lemma ParseIntOfNegativeString(n: nat)
    ensures ParseInt("-" + Decimal(n)) == Num(-(n as int))
  {
    var t := "-" + Decimal(n);
    assert ParseInt(t) == Num(-(n as int)) by {
      assert t[0] == '-' && t[1..] == Decimal(n);
      ParseIntOfNegative(t);
      DecimalValue(n);
    }
  }

  /** parseInt reads back what String wrote, NaN included. */
  lemma ParseIntOfNumberToString(x: JsNumber)
    ensures ParseInt(NumberToString(x)) == x
  {
    match x
    case NaN =>
      ParseIntOfNaN();
    case Num(v) =>
      if v < 0 {
        var n: nat := -v;
        assert NumberToString(x) == "-" + Decimal(n);
        ParseIntOfNegativeString(n);
        assert ParseInt("-" + Decimal(n)) == Num(-(n as int));
        assert -(n as int) == v;
      } else {
        assert NumberToString(x) == Decimal(v);
        ParseIntOfNatString(v);
      }
  }

  /** s.replace(/c/g, "") */
  function RemoveChar(s: string, c: char): (r: string)
    ensures c !in r
    ensures |r| <= |s|
  {
    if s == [] then [] else (if s[0] == c then [] else [s[0]]) + RemoveChar(s[1..], c)
  }

  lemma {:induction false} RemoveCharAppend(a: string, b: string, c: char)
    ensures RemoveChar(a + b, c) == RemoveChar(a, c) + RemoveChar(b, c)
  {
    if a != [] {
      var head := if a[0] == c then [] else [a[0]];
      assert (a + b)[0] == a[0] && (a + b)[1..] == a[1..] + b;
      calc {
        RemoveChar(a + b, c);
        head + RemoveChar(a[1..] + b, c);
        { RemoveCharAppend(a[1..], b, c); }
        head + (RemoveChar(a[1..], c) + RemoveChar(b, c));
        RemoveChar(a, c) + RemoveChar(b, c);
      }
    } else {
      assert a + b == b;
    }
  }

  lemma {:induction false} RemoveAbsentChar(s: string, c: char)
    requires c !in s
    ensures RemoveChar(s, c) == s
  {
    if s != [] {
      RemoveAbsentChar(s[1..], c);
    }
  }

  /** s.replace(/from/g, to) */
  function ReplaceChar(s: string, from: char, to: char): (r: string)
    ensures |r| == |s|
    ensures forall i :: 0 <= i < |s| ==> r[i] == if s[i] == from then to else s[i]
  {
    if s == [] then [] else [if s[0] == from then to else s[0]] + ReplaceChar(s[1..], from, to)
  }

  /** The last three digits of a group, with leading zeros. */
  function Pad3(n: nat): (s: string)
    requires n < 1000
    ensures |s| == 3 && AllDigits(s)
  {
    [DigitChar(n / 100), DigitChar(n / 10 % 10), DigitChar(n % 10)]
  }

  /** n.toLocaleString() with comma grouping: digits in groups of three from the right. */
  function Grouped(n: nat): (s: string)
    ensures |s| > 0
    ensures forall i :: 0 <= i < |s| ==> IsDigit(s[i]) || s[i] == ','
    ensures IsDigit(s[0])
  {
    if n < 1000 then Decimal(n) else Grouped(n / 1000) + "," + Pad3(n % 1000)
  }

  /** Dropping the last decimal digit of a number and of its last three digits agree. */
  lemma DropLastDigit(n: nat)
    ensures n / 10 / 100 == n / 1000
    ensures n / 10 % 100 == n % 1000 / 10
    ensures n % 10 == n % 1000 % 10
  {
    var q, r := n / 1000, n % 1000;
    assert n == 1000 * q + r;
    assert n / 10 == 100 * q + r / 10;
  }

  lemma DropTwoDigits(m: nat)
    ensures m / 10 / 10 == m / 100
    ensures m / 10 % 10 == m % 100 / 10
    ensures m % 10 == m % 100 % 10
  {
    var q, r := m / 100, m % 100;
    assert m == 100 * q + r;
    assert m / 10 == 10 * q + r / 10;
  }

  /** Number.prototype.toLocaleString with comma grouping, for integers. */
  function LocaleString(x: int): (s: string)
    ensures x >= 0 ==> s == Grouped(x)
    ensures x < 0 ==> s == "-" + Grouped(-x)
  {
    if x < 0 then "-" + Grouped(-x) else Grouped(x)
  }

  /** Splitting off the last three digits of a number of four or more digits. */
  lemma DecimalSplit(n: nat)
    requires n >= 1000
    ensures Decimal(n) == Decimal(n / 1000) + Pad3(n % 1000)
  {
    var m := n / 10;
    var r := n % 1000;
    DropLastDigit(n);
    DropTwoDigits(m);
    DropTwoDigits(r);
    assert m / 10 >= 10;
    assert Decimal(m / 10) == Decimal(n / 1000) + [DigitChar(r / 100)];
    assert Decimal(m) == Decimal(m / 10) + [DigitChar(r / 10 % 10)];
    assert Decimal(n) == Decimal(m) + [DigitChar(r % 10)];
  }

  /** Removing the commas of a grouped number leaves its decimal digits. */
  lemma {:induction false} UngroupGrouped(n: nat)
    ensures RemoveChar(Grouped(n), ',') == Decimal(n)
  {
    if n < 1000 {
      RemoveAbsentChar(Decimal(n), ',');
    } else {
      var g, p := Grouped(n / 1000), Pad3(n % 1000);
      assert Grouped(n) == (g + ",") + p;
      assert RemoveChar(g + ",", ',') == Decimal(n / 1000) by {
        UngroupGrouped(n / 1000);
        RemoveCharAppend(g, ",", ',');
        assert RemoveChar(",", ',') == [];
      }
      assert RemoveChar(p, ',') == p by {
        RemoveAbsentChar(p, ',');
      }
      RemoveCharAppend(g + ",", p, ',');
      DecimalSplit(n);
    }
  }

  /** Stripping the commas of toLocaleString's text and parsing the rest gives back any integer. */
  lemma LocaleStringReadBack(x: int)
    ensures ParseInt(RemoveChar(LocaleString(x), ',')) == Num(x)
  {
    if x < 0 {
      var n: nat := -x;
      assert RemoveChar(LocaleString(x), ',') == "-" + Decimal(n) by {
        RemoveCharAppend("-", Grouped(n), ',');
        RemoveAbsentChar("-", ',');
        UngroupGrouped(n);
      }
      ParseIntOfNegativeString(n);
    } else {
      GroupedRoundTrip(x);
    }
  }

  /** Stripping the commas of a grouped number and parsing the rest gives the number back. */
  lemma GroupedRoundTrip(n: nat)
    ensures ParseInt(RemoveChar(Grouped(n), ',')) == Num(n)
  {
    UngroupGrouped(n);
    DecimalValue(n);
    ParseIntOfDigits(Decimal(n));
  }
}
