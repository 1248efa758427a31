/** Decimal printing, zero padding, splitting and number parsing, as the services use them on strings. */
module Text {
  import opened Options

  predicate IsDigit(c: char) { '0' <= c <= '9' }

  ghost predicate Digits(s: string) {
    forall i :: 0 <= i < |s| ==> IsDigit(s[i])
  }

  /** `n.toString()` for a non-negative integer. */
  function Decimal(n: nat): string {
    if n < 10 then [('0' as int + n) as char] else Decimal(n / 10) + Decimal(n % 10)
  }

  /** `n.toString()` for any integer. */
  function Signed(n: int): string {
    if n < 0 then "-" + Decimal(-n) else Decimal(n)
  }

  /** `s.padStart(width, "0")`. */
  function PadStart(s: string, width: nat): string
    decreases width - |s|
  {
    if |s| >= width then s else PadStart("0" + s, width)
  }

  /** `s.slice(-k)`. */
  function LastChars(s: string, k: nat): string {
    if |s| <= k then s else s[|s| - k..]
  }

  /** The number a digit string denotes. */
  function Value(s: string): nat
    requires forall i :: 0 <= i < |s| ==> IsDigit(s[i])
  {
    if s == [] then 0
    else
      var d := s[|s| - 1];
      assert IsDigit(d);
      10 * Value(s[..|s| - 1]) + (d as int - '0' as int)
  }

  function DigitPrefix(s: string): (k: nat)
    ensures k <= |s| && forall i :: 0 <= i < k ==> IsDigit(s[i])
    ensures k == |s| || !IsDigit(s[k])
  {
    if s == [] || !IsDigit(s[0]) then 0 else 1 + DigitPrefix(s[1..])
  }

  /** `parseInt(s, 10)`: the leading digits; None is NaN. */
  function ParseInt(s: string): Option<nat> {
    var k := DigitPrefix(s);
    if k == 0 then None else Some(Value(s[..k]))
  }

  /** `Number(s)` for strings of digits; None is NaN. */
  function ToNumber(s: string): Option<nat> {
    if DigitPrefix(s) == |s| then Some(Value(s)) else None
  }

  /** `s.split(sep)` for a one-character separator. */
  function Split(s: string, sep: char): (parts: seq<string>)
    ensures |parts| >= 1
  {
    if s == [] then [""]
    else
      var rest := Split(s[1..], sep);
      if s[0] == sep then [""] + rest else [[s[0]] + rest[0]] + rest[1..]
  }

  lemma {:induction false} DecimalDenotes(n: nat)
    ensures |Decimal(n)| > 0 && Digits(Decimal(n)) && Value(Decimal(n)) == n
  {
    if n < 10 {
      assert Decimal(n)[..0] == "";
    } else {
      DecimalDenotes(n / 10);
      DecimalDenotes(n % 10);
      var s := Decimal(n);
      assert s[..|s| - 1] == Decimal(n / 10);
      assert s[|s| - 1] == Decimal(n % 10)[0];
      assert Decimal(n % 10)[..0] == "";
    }
  }

  lemma {:induction false} LeadingZero(s: string)
    requires Digits(s)
    ensures Digits("0" + s) && Value("0" + s) == Value(s)
  {
    var z := "0" + s;
    assert Digits(z) by {
      forall i | 0 <= i < |z| ensures IsDigit(z[i]) {
        if i > 0 { assert z[i] == s[i - 1]; }
      }
    }
    if s == [] {
      assert z[..0] == "";
    } else {
      LeadingZero(s[..|s| - 1]);
      assert z[..|z| - 1] == "0" + s[..|s| - 1];
    }
  }

  lemma {:induction false} PaddingDenotes(s: string, width: nat)
    requires Digits(s)
    ensures Digits(PadStart(s, width)) && Value(PadStart(s, width)) == Value(s)
    ensures |PadStart(s, width)| >= |s|
    decreases width - |s|
  {
    if |s| < width {
      LeadingZero(s);
      PaddingDenotes("0" + s, width);
    }
  }

  /** Padding puts zeros in front until the width is reached, and never cuts anything off. */
  lemma {:induction false} PaddedWidth(s: string, width: nat)
    ensures var r := PadStart(s, width);
            && |r| == (if |s| < width then width else |s|)
            && r[|r| - |s|..] == s && forall i :: 0 <= i < |r| - |s| ==> r[i] == '0'
    decreases width - |s|
  {
    if |s| < width {
      PaddedWidth("0" + s, width);
      var r := PadStart(s, width);
      var tail := r[|r| - |s| - 1..];
      assert tail == "0" + s;
      assert tail[1..] == r[|r| - |s|..];
      assert r[|r| - |s| - 1] == tail[0];
    }
  }

  lemma {:induction false} AllDigitsPrefix(s: string)
    requires Digits(s)
    ensures DigitPrefix(s) == |s|
  {
    if s != [] {
      AllDigitsPrefix(s[1..]);
    }
  }

  /** Both ways of reading back a padded decimal give the number printed. */
  lemma PaddedReadsBack(n: nat, width: nat)
    ensures var s := PadStart(Decimal(n), width);
            |s| > 0 && Digits(s) && Value(s) == n && ToNumber(s) == Some(n) && ParseInt(s) == Some(n)
  {
    DecimalDenotes(n);
    PaddingDenotes(Decimal(n), width);
    var s := PadStart(Decimal(n), width);
    AllDigitsPrefix(s);
    assert s[..|s|] == s;
  }

  /** Zero-padded printing never gives two numbers the same text. */
  lemma PaddedInjective(m: nat, n: nat, width: nat)
    ensures PadStart(Decimal(m), width) == PadStart(Decimal(n), width) ==> m == n
  {
    PaddedReadsBack(m, width);
    PaddedReadsBack(n, width);
  }

  lemma {:induction false} SplitPlain(s: string, sep: char)
    requires sep !in s
    ensures Split(s, sep) == [s]
  {
    if s != [] {
      SplitPlain(s[1..], sep);
      assert [s[0]] + s[1..] == s;
    }
  }

  lemma {:induction false} SplitFirst(s: string, sep: char, t: string)
    requires sep !in s
    ensures Split(s + [sep] + t, sep) == [s] + Split(t, sep)
  {
    var w := s + [sep] + t;
    if s == [] {
      assert w[1..] == t;
    } else {
      SplitFirst(s[1..], sep, t);
      assert w[1..] == s[1..] + [sep] + t;
      assert [s[0]] + s[1..] == s;
    }
  }
}
