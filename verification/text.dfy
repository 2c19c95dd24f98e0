/**
 The small amount of text handling the splitter needs: rendering a natural
 number in decimal (optionally zero-padded to width 2, as Python's `{i:02d}`
 does), asking whether a name contains a dash, and taking the part of a name
 before its first dash (Python's `name.split("-")[0]`).
 */
module Text {

  const Dash: char := '-'

  predicate IsDigit(c: char) {
    '0' <= c <= '9'
  }

  predicate AllDigits(s: string) {
    forall i :: 0 <= i < |s| ==> IsDigit(s[i])
  }

  /** The character of a single decimal digit. */
  function DigitChar(d: nat): (c: char)
    requires d < 10
    ensures IsDigit(c)
  {
    (48 + d) as char
  }

  /** The value of a decimal digit character. */
  function DigitValue(c: char): (d: nat)
    requires IsDigit(c)
    ensures d < 10
  {
    (c as int) - 48
  }

  /** Decimal rendering of `n` without padding (Python's `f"{n}"` for n >= 0). */
  function Decimal(n: nat): (r: string)
    ensures 1 <= |r|
    ensures AllDigits(r)
    ensures |r| == 1 || r[0] != '0'
    ensures n < 10 <==> |r| == 1
    decreases n
  {
    if n < 10 then [DigitChar(n)] else Decimal(n / 10) + [DigitChar(n % 10)]
  }

  /** Decimal rendering zero-filled to at least two characters (Python's `f"{n:02d}"`). */
  function Padded(n: nat): (r: string)
    ensures 2 <= |r|
    ensures AllDigits(r)
    ensures |r| == if |Decimal(n)| < 2 then 2 else |Decimal(n)|
  {
    if n < 10 then "0" + Decimal(n) else Decimal(n)
  }

  /** The value of a string of decimal digits; leading zeros are allowed. */
  function ParseDecimal(s: string): nat
    requires AllDigits(s)
  {
    if |s| == 0 then 0 else 10 * ParseDecimal(s[..|s| - 1]) + DigitValue(s[|s| - 1])
  }

  predicate ContainsDash(s: string) {
    Dash in s
  }

  /**
   The part of `s` before its first dash, or all of `s` when it has none.
   The three ensures clauses together determine the result uniquely
   (see `PrefixBeforeDashUnique`).
   */
  function PrefixBeforeDash(s: string): (r: string)
    ensures r <= s
    ensures Dash !in r
    ensures |r| == |s| || s[|r|] == Dash
  {
    if |s| == 0 || s[0] == Dash then "" else [s[0]] + PrefixBeforeDash(s[1..])
  }

  /** Parsing a rendered number gives the number back. */
  lemma {:induction false} ParseDecimalOfDecimal(n: nat)
    ensures ParseDecimal(Decimal(n)) == n
    decreases n
  {
    var r := Decimal(n);
    if n >= 10 {
      assert r[..|r| - 1] == Decimal(n / 10);
      ParseDecimalOfDecimal(n / 10);
    }
  }

  /** A leading zero does not change the parsed value. */
  lemma {:induction false} ParseDecimalLeadingZero(s: string)
    requires AllDigits(s)
    ensures ParseDecimal("0" + s) == ParseDecimal(s)
    decreases |s|
  {
    if |s| > 0 {
      var t := "0" + s;
      assert t[..|t| - 1] == "0" + s[..|s| - 1];
      ParseDecimalLeadingZero(s[..|s| - 1]);
    } else {
      assert "0" + s == "0";
    }
  }

  /** Parsing a zero-padded rendering also gives the number back. */
  lemma ParseDecimalOfPadded(n: nat)
    ensures ParseDecimal(Padded(n)) == n
  {
    ParseDecimalOfDecimal(n);
    if n < 10 {
      ParseDecimalLeadingZero(Decimal(n));
    }
  }

  /** Two digit strings of the same width and the same value are the same string. */
  lemma {:induction false} SameWidthSameValue(a: string, b: string)
    requires AllDigits(a) && AllDigits(b) && |a| == |b|
    requires ParseDecimal(a) == ParseDecimal(b)
    ensures a == b
    decreases |a|
  {
    if |a| > 0 {
      var k := |a| - 1;
      SameWidthSameValue(a[..k], b[..k]);
      assert a == a[..k] + [a[k]] && b == b[..k] + [b[k]];
    }
  }

  /**
   The zero-filled rendering is fixed by its width and its value: any digit
   string as wide as `Padded(n)` that reads back as `n` is `Padded(n)`.
   */
  lemma PaddedDetermined(n: nat, s: string)
    requires AllDigits(s) && |s| == |Padded(n)| && ParseDecimal(s) == n
    ensures s == Padded(n)
  {
    ParseDecimalOfPadded(n);
    SameWidthSameValue(s, Padded(n));
  }

  /** Different numbers render differently, padded or not. */
  lemma RenderingsInjective(m: nat, n: nat)
    ensures Decimal(m) == Decimal(n) ==> m == n
    ensures Padded(m) == Padded(n) ==> m == n
  {
    ParseDecimalOfDecimal(m);
    ParseDecimalOfDecimal(n);
    ParseDecimalOfPadded(m);
    ParseDecimalOfPadded(n);
  }

  /** The prefix before the first dash is the whole string exactly when there is no dash. */
  lemma PrefixBeforeDashWhole(s: string)
    ensures PrefixBeforeDash(s) == s <==> !ContainsDash(s)
  {
  }

  /** Any string with the three properties of `PrefixBeforeDash` is that prefix. */
  lemma {:induction false} PrefixBeforeDashUnique(s: string, p: string)
    requires p <= s && Dash !in p
    requires |p| == |s| || s[|p|] == Dash
    ensures p == PrefixBeforeDash(s)
    decreases |s|
  {
    if |s| == 0 || s[0] == Dash {
    } else {
      assert p[0] == s[0];
      PrefixBeforeDashUnique(s[1..], p[1..]);
      assert p == [p[0]] + p[1..];
    }
  }

  /** Appending a dash and anything at all does not change the prefix before the first dash. */
  lemma PrefixBeforeDashOfJoined(a: string, b: string)
    ensures PrefixBeforeDash(a + [Dash] + b) == PrefixBeforeDash(a)
  {
    var p := PrefixBeforeDash(a);
    var s := a + [Dash] + b;
    assert p <= s;
    PrefixBeforeDashUnique(s, p);
  }
}
