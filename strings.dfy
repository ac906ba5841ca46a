/**
 * The Python string built-ins that the row-name handling of the Elbas parser
 * relies on: `str.split` with a one-character separator, `str.join`,
 * `int()` on a decimal token and `format(n, "02")`.
 */
module Strings {
  import opened Wrappers

  /** `s.split(sep)` for a one-character separator: empty pieces are kept. */
  function Split(s: string, sep: char): (r: seq<string>)
    ensures |r| >= 1
    decreases |s|
  {
    if s == [] then [""]
    else
      var rest := Split(s[1..], sep);
      if s[0] == sep then [""] + rest
      else [[s[0]] + rest[0]] + rest[1..]
  }

  /** No piece of a split holds the separator, and every character of a piece comes from `s`. */
  lemma {:induction false} SplitPieces(s: string, sep: char)
    ensures forall piece :: piece in Split(s, sep) ==> sep !in piece
    ensures forall piece, ch :: piece in Split(s, sep) && ch in piece ==> ch in s
    decreases |s|
  {
    if s != [] {
      SplitPieces(s[1..], sep);
      var rest := Split(s[1..], sep);
      if s[0] != sep {
        assert Split(s, sep) == [[s[0]] + rest[0]] + rest[1..];
        assert rest[0] in rest;
        forall piece | piece in rest[1..] ensures piece in rest { }
      }
    }
  }

  /** `sep.join(parts)`. */
  function Join(parts: seq<string>, sep: string): (r: string)
    ensures |parts| == 0 ==> r == ""
    ensures |parts| == 1 ==> r == parts[0]
    ensures |parts| > 1 ==> parts[0] + sep <= r
    decreases |parts|
  {
    if |parts| == 0 then ""
    else if |parts| == 1 then parts[0]
    else parts[0] + sep + Join(parts[1..], sep)
  }

  /** Every occurrence of `from` in `s` replaced by `to`. */
  function Replace(s: string, from: char, to: char): (r: string)
    ensures |r| == |s|
    ensures forall i :: 0 <= i < |s| ==> r[i] == (if s[i] == from then to else s[i])
    decreases |s|
  {
    if s == [] then []
    else [if s[0] == from then to else s[0]] + Replace(s[1..], from, to)
  }

  /** Joining the pieces of a split with another character replaces the separator. */
  lemma {:induction false} JoinSplit(s: string, sep: char, d: char)
    ensures Join(Split(s, sep), [d]) == Replace(s, sep, d)
    decreases |s|
  {
    if s != [] {
      var rest := Split(s[1..], sep);
      JoinSplit(s[1..], sep, d);
      if s[0] == sep {
        assert Split(s, sep) == [""] + rest;
        assert ([""] + rest)[1..] == rest;
      } else {
        var pieces := [[s[0]] + rest[0]] + rest[1..];
        assert Split(s, sep) == pieces;
        if |rest| > 1 {
          assert pieces[1..] == rest[1..];
          assert Join(rest, [d]) == rest[0] + [d] + Join(rest[1..], [d]);
        }
      }
    }
  }

  /** Splitting and joining back with the same separator gives the original string. */
  lemma SplitRoundTrip(s: string, sep: char)
    ensures Join(Split(s, sep), [sep]) == s
  {
    JoinSplit(s, sep, sep);
    assert Replace(s, sep, sep) == s;
  }

  predicate IsDigit(c: char) {
    '0' <= c <= '9'
  }

  predicate AllDigits(s: string) {
    forall i :: 0 <= i < |s| ==> IsDigit(s[i])
  }

  function DigitValue(c: char): (d: nat)
    requires IsDigit(c)
    ensures d < 10
  {
    (c as int) - ('0' as int)
  }

  function DigitChar(d: nat): (c: char)
    requires d < 10
    ensures IsDigit(c) && DigitValue(c) == d
  {
    (('0' as int) + d) as char
  }

  /** The value of a string of decimal digits, most significant first. */
  function DigitsValue(ds: string): (r: nat)
    requires AllDigits(ds)
    decreases |ds|
  {
    if ds == [] then 0
    else DigitsValue(ds[..|ds| - 1]) * 10 + DigitValue(ds[|ds| - 1])
  }

  /** The shortest decimal representation of `n`. */
  function Decimal(n: nat): (r: string)
    ensures |r| >= 1 && AllDigits(r)
    ensures (n < 10) == (|r| == 1)
    ensures 10 <= n < 100 ==> |r| == 2
    ensures n >= 10 ==> r[0] != '0'
    decreases n
  {
    if n < 10 then [DigitChar(n)] else Decimal(n / 10) + [DigitChar(n % 10)]
  }

  /**
   * Python's `int(s)` on a token: an optional sign followed by at least one
   * ASCII digit; anything else raises ValueError, modelled as None.
   */
  function ParseInt(s: string): (r: Option<int>)
    ensures r.Some? <==> (|s| > 0 && ((s[0] == '+' || s[0] == '-') ==> |s| > 1) &&
                          AllDigits(if s[0] == '+' || s[0] == '-' then s[1..] else s))
  {
    if |s| > 0 && (s[0] == '+' || s[0] == '-') then
      var body := s[1..];
      if |body| > 0 && AllDigits(body) then
        var v: int := DigitsValue(body);
        Some(if s[0] == '-' then -v else v)
      else None
    else if |s| > 0 && AllDigits(s) then Some(DigitsValue(s))
    else None
  }

  /** Python's `format(n, "02")`: zero-padded to width two, the sign counting towards the width. */
  function Pad2(n: int): (r: string)
    ensures |r| >= 2
    ensures (r[0] == '-') == (n < 0)
    ensures AllDigits(if n < 0 then r[1..] else r)
  {
    if n < 0 then "-" + Decimal(-n)
    else if n < 10 then "0" + Decimal(n)
    else Decimal(n)
  }

  /** Reading back the decimal representation gives the number. */
  lemma {:induction false} DecimalRoundTrip(n: nat)
    ensures DigitsValue(Decimal(n)) == n
    decreases n
  {
    if n >= 10 {
      DecimalRoundTrip(n / 10);
      var ds := Decimal(n);
      assert ds == Decimal(n / 10) + [DigitChar(n % 10)];
      assert ds[..|ds| - 1] == Decimal(n / 10);
    }
  }

  /** A leading zero does not change the value of a digit string. */
  lemma {:induction false} LeadingZero(ds: string)
    requires AllDigits(ds)
    ensures AllDigits("0" + ds) && DigitsValue("0" + ds) == DigitsValue(ds)
    decreases |ds|
  {
    var zs := "0" + ds;
    assert AllDigits(zs) by {
      forall i | 0 <= i < |zs| ensures IsDigit(zs[i]) {
        if i > 0 { assert zs[i] == ds[i - 1]; }
      }
    }
    if ds != [] {
      var prefix := ds[..|ds| - 1];
      assert AllDigits(prefix) by {
        forall i | 0 <= i < |prefix| ensures IsDigit(prefix[i]) { assert prefix[i] == ds[i]; }
      }
      LeadingZero(prefix);
      assert zs[..|zs| - 1] == "0" + prefix;
      assert zs[|zs| - 1] == ds[|ds| - 1];
    }
  }

  /**
   * `int(format(n, "02")) == n` for every integer, the text is at least two
   * characters long, and exactly two for -9 <= n <= 99.
   */
  lemma Pad2RoundTrip(n: int)
    ensures ParseInt(Pad2(n)) == Some(n)
    ensures |Pad2(n)| >= 2
    ensures -9 <= n < 100 ==> |Pad2(n)| == 2
  {
    if n < 0 {
      Pad2Negative(n);
    } else if n < 10 {
      Pad2OneDigit(n);
    } else {
      Pad2Unpadded(n);
    }
  }

  lemma Pad2Negative(n: int)
    requires n < 0
    ensures ParseInt(Pad2(n)) == Some(n)
    ensures -9 <= n ==> |Pad2(n)| == 2
  {
    var ds := Decimal(-n);
    DecimalRoundTrip(-n);
    assert Pad2(n) == "-" + ds && Pad2(n)[1..] == ds;
  }

  lemma Pad2OneDigit(n: int)
    requires 0 <= n < 10
    ensures ParseInt(Pad2(n)) == Some(n) && |Pad2(n)| == 2
  {
    var ds := Decimal(n);
    DecimalRoundTrip(n);
    LeadingZero(ds);
    assert Pad2(n) == "0" + ds;
    assert Pad2(n)[0] == '0';
  }

  lemma Pad2Unpadded(n: int)
    requires n >= 10
    ensures ParseInt(Pad2(n)) == Some(n)
    ensures n < 100 ==> |Pad2(n)| == 2
  {
    var ds := Decimal(n);
    DecimalRoundTrip(n);
    assert Pad2(n) == ds;
    assert ds[0] != '+' && ds[0] != '-' by { assert IsDigit(ds[0]); }
  }
}
