/** `format_number` (frontend/utils/charts.py): an integer in decimal with
    its digits grouped by three from the right and the groups separated by
    single spaces, as `f"{n:,}"` followed by replacing each comma with a
    space. */
module Charts {

  predicate IsDigit(c: char) { '0' <= c <= '9' }

  function DigitChar(d: nat): (c: char)
    requires d < 10
    ensures IsDigit(c)
    ensures c as int - '0' as int == d
  {
    ('0' as int + d) as char
  }

  function DigitValue(c: char): (d: nat)
    requires IsDigit(c)
    ensures d < 10 && DigitChar(d) == c
  {
    c as int - '0' as int
  }

  predicate AllDigits(s: string)
  {
    forall i :: 0 <= i < |s| ==> IsDigit(s[i])
  }

  /** `str(n)` for a natural number: no leading zero except for 0 itself. */
  function Digits(n: nat): (s: string)
    ensures |s| >= 1 && AllDigits(s)
    ensures s[0] == '0' ==> n == 0
    ensures n < 10 <==> |s| == 1
  {
    if n < 10 then [DigitChar(n)] else Digits(n / 10) + [DigitChar(n % 10)]
  }

  /** `str(n)` for an integer. */
  function Decimal(n: int): string
  {
    if n < 0 then "-" + Digits(-n) else Digits(n)
  }

  /** A group after the first: always three digits, zeros kept. */
  function Pad3(d: nat): (s: string)
    requires d < 1000
    ensures |s| == 3 && AllDigits(s)
  {
    [DigitChar(d / 100), DigitChar(d / 10 % 10), DigitChar(d % 10)]
  }

  /** The digits of `n` grouped by three from the right. */
  function GroupDigits(n: nat): string
  {
    if n < 1000 then Digits(n) else GroupDigits(n / 1000) + " " + Pad3(n % 1000)
  }

  /** `format_number(n)` for an integer `n` (`int(n)` is the identity on
      the integer amounts the pages pass in). */
  function FormatNumber(n: int): string
  {
    if n < 0 then "-" + GroupDigits(-n) else GroupDigits(n)
  }

  function RemoveSpaces(s: string): (r: string)
    ensures |r| <= |s|
    ensures ' ' !in r
    ensures ' ' !in s ==> r == s
  {
    if s == [] then []
    else if s[0] == ' ' then RemoveSpaces(s[1..])
    else [s[0]] + RemoveSpaces(s[1..])
  }

  lemma {:induction false} RemoveSpacesAppend(a: string, b: string)
    ensures RemoveSpaces(a + b) == RemoveSpaces(a) + RemoveSpaces(b)
  {
    if a == [] {
      assert a + b == b;
    } else {
      assert (a + b)[0] == a[0];
      assert (a + b)[1..] == a[1..] + b;
      RemoveSpacesAppend(a[1..], b);
    }
  }

  /** The value of a non-empty string of decimal digits. */
  function ParseDigits(s: string): nat
    requires AllDigits(s)
  {
    if s == [] then 0 else ParseDigits(s[..|s| - 1]) * 10 + DigitValue(s[|s| - 1])
  }

  /** `int(s)` for an optional minus sign followed by digits. */
  function ParseDecimal(s: string): int
    requires s != [] && (if s[0] == '-' then AllDigits(s[1..]) else AllDigits(s))
  {
    if s[0] == '-' then -(ParseDigits(s[1..]) as int) else ParseDigits(s)
  }

  lemma {:induction false} ParseDigitsOfDigits(n: nat)
    ensures ParseDigits(Digits(n)) == n
  {
    if n >= 10 {
      var s := Digits(n);
      assert s[..|s| - 1] == Digits(n / 10);
      ParseDigitsOfDigits(n / 10);
    }
  }

  /** Splitting off the last three digits of `str(n)` for `n >= 1000`. */
  lemma DigitsSplit(n: nat)
    requires n >= 1000
    ensures Digits(n) == Digits(n / 1000) + Pad3(n % 1000)
  {
    var q := n / 1000;
    var r := n % 1000;
    assert n / 10 / 10 / 10 == q;
    assert n / 10 / 10 % 10 == r / 100;
    assert n / 10 % 10 == r / 10 % 10;
    assert n % 10 == r % 10;
    assert Digits(n / 10 / 10) == Digits(q) + [DigitChar(r / 100)];
    assert Digits(n / 10) == Digits(n / 10 / 10) + [DigitChar(r / 10 % 10)];
  }

  /** Deleting the spaces gives back `str(n)`. */
  lemma {:induction false} GroupDigitsWithoutSpaces(n: nat)
    ensures RemoveSpaces(GroupDigits(n)) == Digits(n)
  {
    if n >= 1000 {
      GroupDigitsWithoutSpaces(n / 1000);
      RemoveSpacesAppend(GroupDigits(n / 1000) + " ", Pad3(n % 1000));
      RemoveSpacesAppend(GroupDigits(n / 1000), " ");
      DigitsSplit(n);
    }
  }

  lemma FormatNumberWithoutSpaces(n: int)
    ensures RemoveSpaces(FormatNumber(n)) == Decimal(n)
  {
    if n < 0 {
      GroupDigitsWithoutSpaces(-n);
      RemoveSpacesAppend("-", GroupDigits(-n));
    } else {
      GroupDigitsWithoutSpaces(n);
    }
  }

  /** `int(str(n)) == n`. */
  lemma DecimalRoundTrip(n: int)
    ensures var s := Decimal(n);
      && s != [] && (if s[0] == '-' then AllDigits(s[1..]) else AllDigits(s))
      && ParseDecimal(s) == n
  {
    if n < 0 {
      var d := Digits(-n);
      ParseDigitsOfDigits(-n);
      assert ("-" + d)[0] == '-';
      assert ("-" + d)[1..] == d;
    } else {
      ParseDigitsOfDigits(n);
    }
  }

  /** Reading the displayed number back, spaces removed, gives `n`. */
  lemma FormatNumberRoundTrip(n: int)
    ensures var s := RemoveSpaces(FormatNumber(n));
      && s != [] && (if s[0] == '-' then AllDigits(s[1..]) else AllDigits(s))
      && ParseDecimal(s) == n
  {
    FormatNumberWithoutSpaces(n);
    DecimalRoundTrip(n);
  }

  /** Groups read from the right: a last group of three digits after a
      single space, down to a leading group of one to three digits whose
      first digit is not 0 unless it is all there is. */
  predicate WellGrouped(s: string)
    decreases |s|
  {
    if |s| <= 3 then 1 <= |s| && AllDigits(s) && (s[0] == '0' ==> s == "0")
    else
      && |s| >= 5
      && s[|s| - 4] == ' '
      && AllDigits(s[|s| - 3..])
      && WellGrouped(s[..|s| - 4])
  }

  lemma {:induction false} GroupDigitsWellGrouped(n: nat)
    ensures WellGrouped(GroupDigits(n))
  {
    if n < 1000 {
      var s := Digits(n);
      if n >= 100 {
        assert |Digits(n / 10)| == 2;
      }
      assert |s| <= 3 by {
        if n >= 10 {
          assert n / 10 < 100;
          assert |Digits(n / 10)| <= 2 by {
            if n / 10 >= 10 { assert |Digits(n / 10 / 10)| == 1; }
          }
        }
      }
    } else {
      var s := GroupDigits(n);
      var head := GroupDigits(n / 1000);
      GroupDigitsWellGrouped(n / 1000);
      GroupDigitsStartsWithDigit(n / 1000);
      assert s == head + " " + Pad3(n % 1000);
      assert s[..|s| - 4] == head;
      assert s[|s| - 3..] == Pad3(n % 1000);
    }
  }

  /** Below one thousand in absolute value nothing is grouped. */
  lemma SmallNumbersHaveNoSpace(n: int)
    requires -1000 < n < 1000
    ensures ' ' !in FormatNumber(n)
    ensures FormatNumber(n) == Decimal(n)
  {
  }

  /** The sign comes first, then the grouped digits of the magnitude. */
  lemma SignInFront(n: int)
    ensures FormatNumber(n)[0] == '-' <==> n < 0
    ensures n < 0 ==> FormatNumber(n)[1..] == FormatNumber(-n)
  {
    if n >= 0 {
      GroupDigitsStartsWithDigit(n);
    } else {
      assert ("-" + GroupDigits(-n))[1..] == GroupDigits(-n);
    }
  }

  lemma {:induction false} GroupDigitsStartsWithDigit(n: nat)
    ensures |GroupDigits(n)| >= 1 && IsDigit(GroupDigits(n)[0])
  {
    if n >= 1000 {
      GroupDigitsStartsWithDigit(n / 1000);
    }
  }

  lemma Pad3Examples()
    ensures Pad3(234) == "234" && Pad3(567) == "567" && Pad3(0) == "000"
  {
    assert DigitChar(2) == '2' && DigitChar(3) == '3' && DigitChar(4) == '4';
    assert DigitChar(5) == '5' && DigitChar(6) == '6' && DigitChar(7) == '7';
    assert DigitChar(0) == '0';
  }

  /** `format_number(1234567)` is `"1 234 567"`. */
  lemma FormatNumberExample()
    ensures FormatNumber(1234567) == "1 234 567"
    ensures FormatNumber(-1000) == "-1 000"
  {
    Pad3Examples();
    assert Digits(1) == "1";
    assert GroupDigits(1234) == "1 234";
    assert GroupDigits(1000) == "1 000";
  }
}
