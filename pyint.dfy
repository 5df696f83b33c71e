/**
 * Python's `int(text)` for base-10 text, as the mailer uses it to read the
 * SMTP port: surrounding whitespace is ignored, an optional sign, then
 * ASCII digits with single underscores allowed between digits, and no more
 * digits than CPython's default conversion limit.
 */
module PyInt {
  import opened Wrappers
  import opened Text

  predicate IsDigit(c: char) {
    '0' <= c <= '9'
  }

  function DigitValue(c: char): (d: nat)
    requires IsDigit(c)
    ensures d < 10
  {
    c as int - '0' as int
  }

  function DigitChar(d: nat): (c: char)
    requires d < 10
    ensures IsDigit(c) && DigitValue(c) == d
  {
    ('0' as int + d) as char
  }

  predicate DigitsOrUnderscores(s: string) {
    forall k :: 0 <= k < |s| ==> IsDigit(s[k]) || s[k] == '_'
  }

  /** Digits, with single underscores allowed only between two digits. */
  predicate WellFormedDigits(s: string) {
    s != [] && DigitsOrUnderscores(s) && IsDigit(s[0]) && IsDigit(s[|s| - 1]) &&
    forall k :: 0 <= k < |s| - 1 && s[k] == '_' ==> IsDigit(s[k + 1])
  }

  /** CPython's default limit on the number of digits `int()` converts
      from decimal text (`sys.get_int_max_str_digits()`); longer text
      raises `ValueError`. */
  const MaxStrDigits := 4300

  /** The number of digits in `s`; underscores, signs and whitespace are
      not counted. */
  function DigitCount(s: string): (n: nat)
    ensures n <= |s|
  {
    if s == [] then 0 else (if IsDigit(s[0]) then 1 else 0) + DigitCount(s[1..])
  }

  /** Counting digits distributes over concatenation. */
  lemma {:induction false} DigitCountAppend(a: string, b: string)
    ensures DigitCount(a + b) == DigitCount(a) + DigitCount(b)
  {
    if a != [] {
      assert (a + b)[0] == a[0];
      assert (a + b)[1..] == a[1..] + b;
      DigitCountAppend(a[1..], b);
    } else {
      assert a + b == b;
    }
  }

  /** Whitespace holds no digit. */
  lemma {:induction false} DigitCountSpace(s: string)
    requires AllSpace(s)
    ensures DigitCount(s) == 0
  {
    if s != [] {
      assert IsSpace(s[0]);
      assert forall k :: 0 <= k < |s[1..]| ==> s[1..][k] == s[k + 1];
      DigitCountSpace(s[1..]);
    }
  }

  lemma DigitCountSplit(s: string, k: nat)
    requires k <= |s|
    ensures DigitCount(s) == DigitCount(s[0..k]) + DigitCount(s[k..|s|])
  {
    assert s == s[0..k] + s[k..|s|];
    DigitCountAppend(s[0..k], s[k..|s|]);
  }

  /** A run of whitespace inside `s` holds no digit. */
  lemma SpaceRun(s: string, i: nat, j: nat)
    requires i <= j <= |s|
    requires forall k :: i <= k < j ==> IsSpace(s[k])
    ensures DigitCount(s[i..j]) == 0
  {
    assert AllSpace(s[i..j]);
    DigitCountSpace(s[i..j]);
  }

  /** Text made only of digits counts every character. */
  lemma {:induction false} DigitCountDigits(s: string)
    requires forall k :: 0 <= k < |s| ==> IsDigit(s[k])
    ensures DigitCount(s) == |s|
  {
    if s != [] {
      DigitCountDigits(s[1..]);
    }
  }

  /** The number the digits spell, underscores skipped. */
  function DigitsValue(s: string): nat
    requires DigitsOrUnderscores(s)
  {
    if s == [] then 0
    else
      var last := s[|s| - 1];
      var v := DigitsValue(s[..|s| - 1]);
      if last == '_' then v else 10 * v + DigitValue(last)
  }

  /** `int` on text without surrounding whitespace: an optional sign,
      then well-formed digits, at most `MaxStrDigits` of them. Accepted
      text holds nothing but digits, underscores and one leading sign. */
  function ParseSigned(t: string): (r: Option<int>)
    ensures r.Some? ==> t != [] && DigitCount(t) <= MaxStrDigits
    ensures r.Some? ==> forall k :: 0 <= k < |t| ==>
      IsDigit(t[k]) || t[k] == '_' || (k == 0 && (t[k] == '+' || t[k] == '-'))
  {
    if t == [] then None
    else
      var negative := t[0] == '-';
      var body := if t[0] == '+' || t[0] == '-' then t[1..] else t;
      if WellFormedDigits(body) && DigitCount(body) <= MaxStrDigits then
        var v: int := DigitsValue(body);
        Some(if negative then -v else v)
      else None
  }

  /** `int(text)`: the value, or `None` where Python raises `ValueError`.
      Text that reads holds at least one character and at most
      `MaxStrDigits` digits once stripped. */
  function ParseInt(text: string): (r: Option<int>)
    ensures r.Some? ==> Strip(text) != [] && DigitCount(Strip(text)) <= MaxStrDigits
  {
    ParseSigned(Strip(text))
  }

  /** Text with more than `MaxStrDigits` digits never reads, wherever the
      digits stand. */
  lemma ParseIntTooManyDigits(text: string)
    requires DigitCount(text) > MaxStrDigits
    ensures ParseInt(text) == None
  {
    DigitCountStrip(text);
  }

  /** Stripping removes no digit. */
  lemma DigitCountStrip(text: string)
    ensures DigitCount(Strip(text)) == DigitCount(text)
  {
    var a := SkipSpace(text, 0);
    var b := TrimEnd(text, a, |text|);
    DigitCountTrim(text, a, b);
  }

  lemma DigitCountTrim(s: string, a: nat, b: nat)
    requires a <= b <= |s|
    requires forall k :: 0 <= k < a ==> IsSpace(s[k])
    requires forall k :: b <= k < |s| ==> IsSpace(s[k])
    ensures DigitCount(s[a..b]) == DigitCount(s)
  {
    TrimBack(s, b);
    var head := s[0..b];
    assert forall k :: 0 <= k < a ==> head[k] == s[k];
    TrimFront(head, a);
    assert head[a..|head|] == s[a..b];
  }

  /** Dropping trailing whitespace keeps the digit count. */
  lemma TrimBack(s: string, b: nat)
    requires b <= |s|
    requires forall k :: b <= k < |s| ==> IsSpace(s[k])
    ensures DigitCount(s[0..b]) == DigitCount(s)
  {
    DigitCountSplit(s, b);
    SpaceRun(s, b, |s|);
  }

  /** Dropping leading whitespace keeps the digit count. */
  lemma TrimFront(s: string, a: nat)
    requires a <= |s|
    requires forall k :: 0 <= k < a ==> IsSpace(s[k])
    ensures DigitCount(s[a..|s|]) == DigitCount(s)
  {
    DigitCountSplit(s, a);
    SpaceRun(s, 0, a);
  }

  /** The decimal spelling of a natural number. */
  function Decimal(n: nat): (s: string)
    ensures s != [] && forall k :: 0 <= k < |s| ==> IsDigit(s[k])
  {
    if n < 10 then [DigitChar(n)] else Decimal(n / 10) + [DigitChar(n % 10)]
  }

  /** The decimal spelling reads back as the number. */
  lemma {:induction false} DecimalValue(n: nat)
    ensures WellFormedDigits(Decimal(n)) && DigitsValue(Decimal(n)) == n
  {
    if n >= 10 {
      DecimalValue(n / 10);
      var s := Decimal(n);
      assert s[..|s| - 1] == Decimal(n / 10);
    }
  }

  /** Whitespace around a text does not change what `int` makes of it. */
  lemma ParseIntSurrounded(p: string, t: string, q: string)
    requires AllSpace(p) && AllSpace(q) && Trimmed(t)
    ensures ParseInt(p + t + q) == ParseSigned(t)
  {
    StripUnique(p, t, q);
  }

  /** `int` reads back what the decimal spelling writes, up to the digit
      limit. */
  lemma ParseIntDecimal(n: nat)
    ensures ParseInt(Decimal(n)) == if |Decimal(n)| <= MaxStrDigits then Some(n) else None
  {
    var d := Decimal(n);
    assert !IsSpace(d[0]) && !IsSpace(d[|d| - 1]);
    StripTrimmed(d);
    DecimalValue(n);
    DigitCountDigits(d);
  }

  lemma ParseSignedNegative(n: nat)
    ensures Trimmed("-" + Decimal(n))
    ensures ParseSigned("-" + Decimal(n)) == if |Decimal(n)| <= MaxStrDigits then Some(-(n as int)) else None
  {
    var d := Decimal(n);
    var t := "-" + d;
    DecimalValue(n);
    DigitCountDigits(d);
    assert t[0] == '-' && t[1..] == d && t[|t| - 1] == d[|d| - 1];
  }

  /** ... and with a leading minus sign, its negation. */
  lemma ParseIntNegative(n: nat)
    ensures ParseInt("-" + Decimal(n)) == if |Decimal(n)| <= MaxStrDigits then Some(-(n as int)) else None
  {
    ParseSignedNegative(n);
    StripTrimmed("-" + Decimal(n));
  }

  lemma ParseSignedUnderscore()
    ensures ParseSigned("5_87") == Some(587)
  {
    var t := "5_87";
    assert WellFormedDigits(t);
    assert t[..3] == "5_8";
    assert "5_8"[..2] == "5_";
    assert "5_"[..1] == "5";
    assert "5"[..0] == [];
  }

  /** An underscore that does not stand between two digits makes the
      digits ill-formed. */
  lemma UnderscoreOutsideDigits(s: string, j: nat)
    requires j < |s| && s[j] == '_'
    requires j == 0 || j + 1 == |s| || !IsDigit(s[j - 1]) || !IsDigit(s[j + 1])
    ensures !WellFormedDigits(s)
  {
    if j > 0 && j + 1 < |s| && !IsDigit(s[j - 1]) && s[j - 1] == '_' {
      assert !IsDigit(s[j]);
    }
  }

  /** `int` rejects an underscore at either end of the digits, next to a
      sign or next to another underscore. */
  lemma ParseSignedMisplacedUnderscore(t: string, k: nat)
    requires k < |t| && t[k] == '_'
    requires k == 0 || k + 1 == |t| || !IsDigit(t[k - 1]) || !IsDigit(t[k + 1])
    ensures ParseSigned(t) == None
  {
    var signed := t[0] == '+' || t[0] == '-';
    var off := if signed then 1 else 0;
    var body := if signed then t[1..] else t;
    var j := k - off;
    assert body[j] == '_';
    if 0 < j {
      assert body[j - 1] == t[k - 1];
    }
    if j + 1 < |body| {
      assert body[j + 1] == t[k + 1];
    }
    UnderscoreOutsideDigits(body, j);
    ParseSignedIllFormed(t);
  }

  /** Signed text whose digits are ill-formed does not read. */
  lemma ParseSignedIllFormed(t: string)
    requires t != []
    requires !WellFormedDigits(if t[0] == '+' || t[0] == '-' then t[1..] else t)
    ensures ParseSigned(t) == None
  {
  }

  /** The same for `int(text)`, whatever whitespace surrounds the text. */
  lemma ParseIntMisplacedUnderscore(text: string, k: nat)
    requires k < |text| && text[k] == '_'
    requires k == 0 || k + 1 == |text| || !IsDigit(text[k - 1]) || !IsDigit(text[k + 1])
    ensures ParseInt(text) == None
  {
    var a := SkipSpace(text, 0);
    var b := TrimEnd(text, a, |text|);
    var t := Strip(text);
    StripKeeps(text, k);
    assert t == text[a..b] && t[k - a] == '_';
    if a < k {
      assert t[k - a - 1] == text[k - 1];
    }
    if k + 1 < b {
      assert t[k - a + 1] == text[k + 1];
    }
    ParseSignedMisplacedUnderscore(t, k - a);
  }

  /** `5_`, `_5`, `5__7` and a bare sign are not integers. */
  lemma ParseIntRejectsMisplacedUnderscore()
    ensures ParseInt("5_") == None && ParseInt("_5") == None
    ensures ParseInt("5__7") == None && ParseInt("-") == None
  {
    ParseIntMisplacedUnderscore("5_", 1);
    ParseIntMisplacedUnderscore("_5", 0);
    ParseIntMisplacedUnderscore("5__7", 2);
    StripTrimmed("-");
  }

  /** Underscores between digits are skipped. */
  lemma ParseIntUnderscore()
    ensures ParseInt("5_87") == Some(587)
  {
    var t := "5_87";
    ParseSignedUnderscore();
    ParseIntSurrounded([], t, []);
    assert [] + t + [] == t;
  }

  /** A trailing letter makes the port non-numeric. */
  lemma ParseIntRejectsLetter()
    ensures ParseInt("587a") == None
  {
    ParseIntRejectsStray("587a", 3);
  }

  /** A character that is neither white space, a digit, an underscore nor
      a sign makes the text non-numeric, wherever it stands. */
  lemma ParseIntRejectsStray(s: string, k: nat)
    requires k < |s| && !IsSpace(s[k]) && !IsDigit(s[k]) && s[k] !in "_+-"
    ensures ParseInt(s) == None
  {
    StripKeeps(s, k);
  }
}
