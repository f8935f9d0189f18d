/**
 * Number-to-text conversions the dashboard uses: `Number.prototype.toString(radix)`
 * on non-negative integers, `String(n)` on integers, and `String.prototype.padStart`
 * with a one-character filler.
 */
module NumberText {

  /** The digit character for `d` in JavaScript's lowercase radix alphabet 0-9a-z. */
  function DigitChar(d: int): (c: char)
    requires 0 <= d < 36
  {
    if d < 10 then ('0' as int + d) as char else ('a' as int + d - 10) as char
  }

  /** The value of a lowercase radix digit, or -1 for any other character. */
  function DigitValue(c: char): int {
    if '0' <= c <= '9' then c as int - '0' as int
    else if 'a' <= c <= 'z' then c as int - 'a' as int + 10
    else -1
  }

  predicate IsDigitOf(c: char, radix: int) { 0 <= DigitValue(c) < radix }

  lemma DigitRoundTrip(d: int)
    requires 0 <= d < 36
    ensures DigitValue(DigitChar(d)) == d
  {
  }

  lemma DigitCharOf(c: char)
    requires 0 <= DigitValue(c) < 36
    ensures DigitChar(DigitValue(c)) == c
  {
  }

  /** `n.toString(radix)` for a non-negative integer `n`: most significant digit first. */
  function ToRadix(n: nat, radix: int): (s: string)
    requires 2 <= radix <= 36
    ensures |s| >= 1
    decreases n
  {
    if n < radix then [DigitChar(n)]
    else
      QuotientSmaller(n, radix);
      ToRadix(n / radix, radix) + [DigitChar(n % radix)]
  }

  /** The value of a string of radix digits, most significant first. */
  function ParseRadix(s: string, radix: int): int {
    if s == [] then 0 else ParseRadix(s[..|s| - 1], radix) * radix + DigitValue(s[|s| - 1])
  }

  lemma QuotientSmaller(n: nat, radix: int)
    requires 2 <= radix <= n
    ensures 1 <= n / radix < n
    ensures n == (n / radix) * radix + n % radix
  {
    AtLeastDouble(n / radix, radix);
  }

  lemma {:induction false} AtLeastDouble(q: nat, radix: int)
    requires radix >= 2
    ensures q * radix >= 2 * q
  {
    if q > 0 {
      AtLeastDouble(q - 1, radix);
      assert q * radix == (q - 1) * radix + radix;
    }
  }

  /** `toString(radix)` writes only digits of the radix, with no leading zero unless `n` is 0. */
  lemma {:induction false} ToRadixDigits(n: nat, radix: int)
    requires 2 <= radix <= 36
    ensures forall i :: 0 <= i < |ToRadix(n, radix)| ==> IsDigitOf(ToRadix(n, radix)[i], radix)
    ensures ToRadix(n, radix)[0] == '0' <==> n == 0
    decreases n
  {
    if n < radix {
      DigitRoundTrip(n);
    } else {
      QuotientSmaller(n, radix);
      ToRadixDigits(n / radix, radix);
      DigitRoundTrip(n % radix);
    }
  }

  /** Reading back what `toString(radix)` wrote gives the number. */
  lemma {:induction false} ParseToRadix(n: nat, radix: int)
    requires 2 <= radix <= 36
    ensures ParseRadix(ToRadix(n, radix), radix) == n
    decreases n
  {
    var s := ToRadix(n, radix);
    if n < radix {
      DigitRoundTrip(n);
      assert s[..|s| - 1] == [];
    } else {
      var q, r := n / radix, n % radix;
      QuotientSmaller(n, radix);
      ParseToRadix(q, radix);
      assert s[..|s| - 1] == ToRadix(q, radix);
      DigitRoundTrip(r);
      calc {
        ParseRadix(s, radix);
        ParseRadix(ToRadix(q, radix), radix) * radix + DigitValue(DigitChar(r));
        q * radix + r;
      }
    }
  }

  /** `s.padStart(len, fill)` for a one-character filler. */
  function PadStart(s: string, len: nat, fill: char): (r: string)
    ensures |r| == if |s| >= len then |s| else len
    decreases len - |s|
  {
    if |s| >= len then s else PadStart([fill] + s, len, fill)
  }

  /** `padStart` keeps `s` at the end and fills only in front of it. */
  lemma {:induction false} PadStartShape(s: string, len: nat, fill: char)
    ensures PadStart(s, len, fill)[|PadStart(s, len, fill)| - |s|..] == s
    ensures forall i :: 0 <= i < |PadStart(s, len, fill)| - |s| ==> PadStart(s, len, fill)[i] == fill
    decreases len - |s|
  {
    if |s| < len {
      PadStartShape([fill] + s, len, fill);
    }
  }

  /** `String(n)` for an integer `n`. */
  function IntToString(n: int): (s: string)
    ensures |s| >= 1
  {
    if n < 0 then "-" + ToRadix(-n, 10) else ToRadix(n, 10)
  }

  /** `String(v).padStart(2, "0")` for 0 <= v < 100 is its two decimal digits. */
  lemma {:induction false} TwoDigits(v: int)
    requires 0 <= v < 100
    ensures PadStart(IntToString(v), 2, '0') == [DigitChar(v / 10), DigitChar(v % 10)]
  {
    if v >= 10 {
      assert ToRadix(v / 10, 10) == [DigitChar(v / 10)];
    }
  }

  /** Reading back a two-digit zero-padded number gives the number. */
  lemma TwoDigitsParse(v: int)
    requires 0 <= v < 100
    ensures ParseRadix(PadStart(IntToString(v), 2, '0'), 10) == v
  {
    TwoDigits(v);
    DigitRoundTrip(v / 10);
    DigitRoundTrip(v % 10);
    var s := [DigitChar(v / 10), DigitChar(v % 10)];
    assert s[..1] == [DigitChar(v / 10)] && s[..1][..0] == [];
    assert ParseRadix(s[..1], 10) == v / 10;
    assert ParseRadix(s, 10) == (v / 10) * 10 + v % 10;
  }

  /** Reading back a four-digit year gives the year. */
  lemma FourDigitParse(y: int)
    requires 1000 <= y <= 9999
    ensures |IntToString(y)| == 4
    ensures ParseRadix(IntToString(y), 10) == y
  {
    FourDigitYear(y);
    ParseToRadix(y, 10);
  }

  /** Decimal strings of a four-digit year have four characters. */
  lemma {:induction false} FourDigitYear(y: int)
    requires 1000 <= y <= 9999
    ensures |IntToString(y)| == 4
  {
    assert |ToRadix(y / 1000, 10)| == 1;
    assert |ToRadix(y / 100, 10)| == 2;
    assert |ToRadix(y / 10, 10)| == 3;
  }
}
