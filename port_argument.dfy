/**
 * How EchoServer chooses its port: `Integer.parseInt(args[0])`, and the
 * default port 7 when there is no argument or it is not an int numeral
 * (both raise a RuntimeException that the server catches).
 */
module PortArgument {

  datatype Option<T> = None | Some(value: T)

  const DefaultPort: int := 7

  /** The range of a Java int. */
  const MinInt: int := -0x8000_0000
  const MaxInt: int := 0x7fff_ffff

  predicate IsDigit(c: char)
  {
    '0' <= c <= '9'
  }

  predicate AllDigits(s: string)
  {
    forall i | 0 <= i < |s| :: IsDigit(s[i])
  }

  /** The value of a string of decimal digits, read left to right as parseInt does. */
  function DigitsValue(s: string): (v: nat)
    requires AllDigits(s)
    decreases |s|
  {
    if |s| == 0 then 0
    else DigitsValue(s[..|s| - 1]) * 10 + (s[|s| - 1] as int - '0' as int)
  }

  predicate IsSign(c: char)
  {
    c == '-' || c == '+'
  }

  /** An optional sign followed by at least one decimal digit. */
  predicate IsNumeral(s: string)
  {
    if |s| > 0 && IsSign(s[0]) then |s| > 1 && AllDigits(s[1..])
    else |s| > 0 && AllDigits(s)
  }

  function NumeralValue(s: string): int
    requires IsNumeral(s)
  {
    if IsSign(s[0]) then
      (if s[0] == '-' then -(DigitsValue(s[1..]) as int) else DigitsValue(s[1..]))
    else DigitsValue(s)
  }

  /** Integer.parseInt(s, 10) over ASCII digits: None where it throws NumberFormatException. */
  function ParseInt(s: string): Option<int>
  {
    if IsNumeral(s) && MinInt <= NumeralValue(s) <= MaxInt then Some(NumeralValue(s)) else None
  }

  /** The port the server listens on: the parsed first argument, else DefaultPort. */
  function Port(args: seq<string>): int
  {
    if |args| == 0 then DefaultPort
    else match ParseInt(args[0])
      case Some(p) => p
      case None => DefaultPort
  }

  function Digit(d: nat): char
    requires d < 10
  {
    ('0' as int + d) as char
  }

  /** The decimal numeral of n, without sign or leading zeros. */
  function Decimal(n: nat): string
    decreases n
  {
    if n < 10 then [Digit(n)] else Decimal(n / 10) + [Digit(n % 10)]
  }

  /** Decimal is inverted by DigitsValue. */
  lemma {:induction false} DecimalValue(n: nat)
    ensures |Decimal(n)| > 0 && AllDigits(Decimal(n)) && DigitsValue(Decimal(n)) == n
    decreases n
  {
    var s := Decimal(n);
    if n >= 10 {
      DecimalValue(n / 10);
      assert s[..|s| - 1] == Decimal(n / 10);
    }
  }

  /** parseInt reads back every numeral in the int range, with or without a minus sign. */
  lemma ParseIntRoundTrip(n: nat)
    ensures n <= MaxInt ==> ParseInt(Decimal(n)) == Some(n)
    ensures n <= -MinInt ==> ParseInt("-" + Decimal(n)) == Some(-(n as int))
  {
    DecimalValue(n);
    var s := "-" + Decimal(n);
    assert s[1..] == Decimal(n);
  }

  /** parseInt accepts nothing but an optional sign and decimal digits, and only int values. */
  lemma ParseIntAccepts(s: string)
    ensures ParseInt(s).Some? ==>
      && |s| > 0
      && (forall i | 0 <= i < |s| :: IsDigit(s[i]) || (i == 0 && IsSign(s[i])))
      && exists i | 0 <= i < |s| :: IsDigit(s[i])
    ensures ParseInt(s).Some? ==> MinInt <= ParseInt(s).value <= MaxInt
  {
    if ParseInt(s).Some? {
      if IsSign(s[0]) {
        assert IsDigit(s[1..][0]);
        forall i | 1 <= i < |s| ensures IsDigit(s[i]) {
          assert s[i] == s[1..][i - 1];
        }
      } else {
        assert IsDigit(s[0]);
      }
    }
  }

  /** The numeral of any int in [0, MaxInt] as first argument selects that port; later arguments are ignored. */
  lemma PortOfNumeral(n: nat, rest: seq<string>)
    requires n <= MaxInt
    ensures Port([Decimal(n)] + rest) == n
  {
    ParseIntRoundTrip(n);
  }

  /** A numeral beyond the int range makes parseInt throw, so the port falls back to DefaultPort. */
  lemma PortOfOverflow(n: nat, rest: seq<string>)
    requires n > MaxInt
    ensures Port([Decimal(n)] + rest) == DefaultPort
  {
    DecimalValue(n);
  }

  /** No argument gives 7, "9000" gives 9000, "notanumber" gives 7. */
  lemma PortExamples()
    ensures Port([]) == 7
    ensures Port(["9000"]) == 9000
    ensures Port(["notanumber"]) == 7
  {
    PortOfNumeral(9000, []);
    assert Decimal(9000) == "9000";
    assert [Decimal(9000)] + [] == ["9000"];
    assert !IsDigit("notanumber"[0]);
  }
}
