/** The pluralizer of internal/generator/plural.go: East-Slavic one/few/many
    form selection, printed after the number. */
module Generator {
  import opened Text

  /** Go's `%` on int: truncated toward zero, so the remainder has the sign
      of the dividend. */
  function TruncMod(n: int, d: int): (r: int)
    requires d > 0
    ensures -d < r < d
    ensures n >= 0 ==> r == n % d
    ensures n < 0 ==> r <= 0
  {
    if n >= 0 then n % d else -((-n) % d)
  }

  /** The truncated remainder is odd in the dividend: negating n negates it. */
  lemma TruncModOdd(n: int, d: int)
    requires d > 0
    ensures TruncMod(-n, d) == -TruncMod(n, d)
  {
  }

  datatype Form = One | Few | Many

  /** The form Plural picks for n. */
  function FormOf(n: int): Form
  {
    var mod10 := TruncMod(n, 10);
    var mod100 := TruncMod(n, 100);
    if mod10 == 1 && mod100 != 11 then One
    else if 2 <= mod10 <= 4 && (mod100 < 12 || mod100 > 14) then Few
    else Many
  }

  function Choose(one: string, few: string, many: string, f: Form): string
  {
    match f
    case One => one
    case Few => few
    case Many => many
  }

  /** Plural(one, few, many)(n): the decimal of n, a space, then the form. */
  function Plural(one: string, few: string, many: string, n: int): string
  {
    IntToString(n) + " " + Choose(one, few, many, FormOf(n))
  }

  // ---- properties ----------------------------------------------------------

  /** A reference rule on the decimal digits: "one" when the last digit is 1
      and the one before it is not 1; "few" when the last digit is 2, 3 or 4
      and the one before it is not 1; "many" otherwise. */
  function FormByDigits(n: nat): Form
  {
    var s := NatToString(n);
    var units := s[|s| - 1];
    var tens := if |s| >= 2 then s[|s| - 2] else '0';
    if units == '1' && tens != '1' then One
    else if '2' <= units <= '4' && tens != '1' then Few
    else Many
  }

  /** The remainder rule of the source is the digit rule for every n >= 0. */
  lemma FormMatchesDigits(n: nat)
    ensures FormOf(n) == FormByDigits(n)
  {
    var s := NatToString(n);
    var tensValue := (n / 10) % 10;
    assert n % 100 == 10 * tensValue + n % 10;
    if n >= 10 {
      TensDigit(n);
    } else {
      assert tensValue == 0;
    }
    var tens := if |s| >= 2 then s[|s| - 2] else '0';
    assert tens == DigitChar(tensValue);
    assert s[|s| - 1] == DigitChar(n % 10);
  }

  /** Negative numbers always take the "many" form, since Go's remainders of
      a negative number are never positive. */
  lemma NegativeIsMany(n: int)
    requires n < 0
    ensures FormOf(n) == Many
  {
  }

  /** The form of n >= 0 depends on n modulo 100 only. */
  lemma FormPeriodic(n: nat)
    ensures FormOf(n + 100) == FormOf(n)
  {
    assert (n + 100) % 10 == n % 10;
    assert (n + 100) % 100 == n % 100;
  }

  /** The concrete cases of the rule. */
  lemma FormExamples()
    ensures FormOf(1) == One && FormOf(21) == One && FormOf(101) == One
    ensures FormOf(11) == Many && FormOf(111) == Many
    ensures FormOf(2) == Few && FormOf(22) == Few && FormOf(4) == Few
    ensures FormOf(12) == Many && FormOf(14) == Many
    ensures FormOf(0) == Many && FormOf(5) == Many && FormOf(-1) == Many
  {
  }

  /** The printed text is the decimal digits of n >= 0, one space and one of
      the three forms: reading the digits back gives n. */
  lemma PluralShape(one: string, few: string, many: string, n: nat)
    ensures var r := Plural(one, few, many, n);
      var k := |NatToString(n)|;
      && k < |r| && r[k] == ' '
      && (forall i :: 0 <= i < k ==> IsDigit(r[i]))
      && DecimalValue(r[..k]) == n
      && r[k + 1..] in {one, few, many}
  {
    var s := NatToString(n);
    var r := Plural(one, few, many, n);
    assert r[..|s|] == s;
    assert r[|s| + 1..] == Choose(one, few, many, FormOf(n));
    NatToStringRoundTrip(n);
  }

  /** The forms the report uses for the number of cases. */
  lemma CasesExamples()
    ensures Plural("випадку", "випадках", "випадках", 1) == "1 випадку"
    ensures Plural("випадку", "випадках", "випадках", 3) == "3 випадках"
    ensures Plural("випадку", "випадках", "випадках", 11) == "11 випадках"
  {
    assert NatToString(11) == NatToString(1) + [DigitChar(1)];
  }
}
