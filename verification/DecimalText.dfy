/** Numbers as decimal text: the three-digit form of migration versions, and what `int` reads back. */
module DecimalText {
  import opened Common
  import TextOrder

  const MAX_VERSION: nat := 999

  predicate IsDigit(c: char) { '0' <= c <= '9' }

  predicate IsDigits(s: string) { forall i :: 0 <= i < |s| ==> IsDigit(s[i]) }

  function DigitChar(d: nat): char
    requires d < 10
  {
    '0' + d as char
  }

  function DigitValue(c: char): nat
    requires IsDigit(c)
  {
    (c - '0') as nat
  }

  function Decimal(n: nat): (s: string)
    ensures s != [] && IsDigits(s)
  {
    if n < 10 then [DigitChar(n)] else Decimal(n / 10) + [DigitChar(n % 10)]
  }

  function PadLeft(s: string, width: nat): (padded: string)
    decreases width - |s|
  {
    if |s| >= width then s else PadLeft("0" + s, width)
  }

  // The format 03d: the sign counts towards the width.
  function Format3(n: int): string {
    if n < 0 then "-" + PadLeft(Decimal(-n), 2) else PadLeft(Decimal(n), 3)
  }

  function Value(digits: string): nat
    requires IsDigits(digits)
  {
    if digits == [] then 0
    else 10 * Value(digits[..|digits| - 1]) + DigitValue(digits[|digits| - 1])
  }

  // `int` on text, for unsigned decimal text; None is the exception it raises on other text.
  function ParseInt(s: string): Option<nat> {
    if s != [] && IsDigits(s) then Some(Value(s)) else None
  }

  predicate ThreeDigits(s: string) { |s| == 3 && IsDigits(s) }

  lemma FormatShape(n: nat)
    requires n <= MAX_VERSION
    ensures Format3(n) == [DigitChar(n / 100), DigitChar(n / 10 % 10), DigitChar(n % 10)]
  {
    if n >= 100 {
      assert Decimal(n) == Decimal(n / 10) + [DigitChar(n % 10)];
      assert Decimal(n / 10) == Decimal(n / 10 / 10) + [DigitChar(n / 10 % 10)];
      assert n / 10 / 10 == n / 100;
    } else if n >= 10 {
      assert Decimal(n) == Decimal(n / 10) + [DigitChar(n % 10)];
      assert PadLeft(Decimal(n), 3) == "0" + Decimal(n);
    } else {
      assert PadLeft("0" + Decimal(n), 3) == "0" + ("0" + Decimal(n));
    }
  }

  lemma ValueShape(s: string)
    requires ThreeDigits(s)
    ensures Value(s) == 100 * DigitValue(s[0]) + 10 * DigitValue(s[1]) + DigitValue(s[2])
  {
    var two := s[..2];
    assert Value(s) == 10 * Value(two) + DigitValue(s[2]);
    assert Value(two) == 10 * Value(two[..1]) + DigitValue(s[1]);
    assert Value(two[..1]) == 10 * Value(two[..1][..0]) + DigitValue(s[0]);
  }

  lemma {:induction false} DecimalValue(n: nat)
    ensures Value(Decimal(n)) == n
  {
    if n < 10 {
      assert Decimal(n)[..0] == [];
    } else {
      DecimalValue(n / 10);
      var s := Decimal(n);
      assert s[..|s| - 1] == Decimal(n / 10);
    }
  }

  lemma {:induction false} LeadingZero(s: string)
    requires IsDigits(s)
    ensures IsDigits("0" + s) && Value("0" + s) == Value(s)
  {
    var t := "0" + s;
    if s == "" {
      assert t[..0] == [] && t == "0";
    } else {
      LeadingZero(s[..|s| - 1]);
      assert t[..|t| - 1] == "0" + s[..|s| - 1];
    }
  }

  lemma {:induction false} PaddingKeepsValue(s: string, width: nat)
    requires IsDigits(s) && s != ""
    ensures PadLeft(s, width) != "" && IsDigits(PadLeft(s, width)) && Value(PadLeft(s, width)) == Value(s)
    decreases width - |s|
  {
    if |s| < width {
      LeadingZero(s);
      PaddingKeepsValue("0" + s, width);
    }
  }

  /** Formatting then reading gives the number back, however long it is; up to 999 it takes three digits. */
  lemma FormatThenParse(n: nat)
    ensures ParseInt(Format3(n)) == Some(n)
    ensures ThreeDigits(Format3(n)) <==> n <= MAX_VERSION
  {
    DecimalValue(n);
    PaddingKeepsValue(Decimal(n), 3);
    if n <= MAX_VERSION { FormatShape(n); } else { DecimalLength(n); }
  }

  lemma SplitDigits(a: nat, b: nat, c: nat)
    requires a < 10 && b < 10 && c < 10
    ensures var n := 100 * a + 10 * b + c;
            n <= MAX_VERSION && n / 100 == a && n / 10 % 10 == b && n % 10 == c
  {
  }

  /** Reading then formatting gives the text back. */
  lemma ParseThenFormat(s: string)
    requires ThreeDigits(s)
    ensures Value(s) <= MAX_VERSION && Format3(Value(s)) == s
  {
    ValueShape(s);
    SplitDigits(DigitValue(s[0]), DigitValue(s[1]), DigitValue(s[2]));
    FormatShape(Value(s));
    forall i | 0 <= i < 3 ensures DigitChar(DigitValue(s[i])) == s[i] {}
  }

  lemma {:induction false} DecimalLength(n: nat)
    ensures n >= 1000 ==> |Decimal(n)| >= 4
    ensures n >= 100 ==> |Decimal(n)| >= 3
    ensures n >= 10 ==> |Decimal(n)| >= 2
  {
    if n >= 10 { DecimalLength(n / 10); }
  }

  lemma ThreeCharacterOrder(x: string, y: string)
    requires |x| == 3 && |y| == 3
    ensures TextOrder.Leq(x, y) <==>
              x[0] < y[0] || (x[0] == y[0] && (x[1] < y[1] || (x[1] == y[1] && x[2] <= y[2])))
  {
    assert x[1..][1..] == [x[2]] && y[1..][1..] == [y[2]];
    assert TextOrder.Leq([x[2]], [y[2]]) <==> x[2] <= y[2] by {
      assert [x[2]][1..] == [] && [y[2]][1..] == [];
    }
  }

  lemma DigitOrder(a: nat, b: nat)
    ensures a < b <==>
              a / 100 < b / 100 || (a / 100 == b / 100 &&
                (a / 10 % 10 < b / 10 % 10 || (a / 10 % 10 == b / 10 % 10 && a % 10 < b % 10)))
  {
    assert a == 100 * (a / 100) + 10 * (a / 10 % 10) + a % 10;
    assert b == 100 * (b / 100) + 10 * (b / 10 % 10) + b % 10;
  }

  /** Text order is number order. */
  lemma FormatKeepsOrder(a: nat, b: nat)
    requires a <= MAX_VERSION && b <= MAX_VERSION
    ensures TextOrder.Less(Format3(a), Format3(b)) <==> a < b
  {
    FormatShape(a);
    FormatShape(b);
    ThreeCharacterOrder(Format3(a), Format3(b));
    DigitOrder(a, b);
    DigitOrder(b, a);
  }
}
