/**
 * The loosely typed values a platform notice carries, with the two Python
 * operations the plugin applies to them: truth testing (`if user_id:`) and
 * conversion to text (`str(group_id)`).
 */
module Values {

  /** A value read from a notice mapping. `Other` is any further object, given by its `str()` text and truth value. */
  datatype Value =
    | NoneValue
    | BoolValue(b: bool)
    | IntValue(i: int)
    | StrValue(s: string)
    | Other(text: string, truth: bool)

  /**
   * Python truthiness: `None`, `False`, `0` and `""` are false. For ints and strings
   * this is read off their text: an int is false exactly when it prints as `0`.
   */
  predicate Truthy(v: Value)
    ensures v.NoneValue? ==> !Truthy(v)
    ensures v.IntValue? ==> (Truthy(v) <==> Str(v) != "0")
    ensures v.StrValue? ==> (Truthy(v) <==> Str(v) != "")
  {
    match v
    case NoneValue => false
    case BoolValue(b) => b
    case IntValue(i) => IntTextIsZero(i); i != 0
    case StrValue(s) => s != ""
    case Other(_, truth) => truth
  }

  /** Only the integer zero prints as `0`. */
  lemma IntTextIsZero(i: int)
    ensures Str(IntValue(i)) == "0" <==> i == 0
  {
  }

  function Digit(d: nat): (c: char)
    requires d < 10
    ensures '0' <= c <= '9'
  {
    "0123456789"[d]
  }

  function DigitValue(c: char): nat
    requires '0' <= c <= '9'
  {
    (c - '0') as nat
  }

  /** The decimal numeral Python prints for `n`: no sign, no leading zero. */
  function Decimal(n: nat): (s: string)
    ensures 1 <= |s|
    ensures forall k :: 0 <= k < |s| ==> '0' <= s[k] <= '9'
    ensures |s| > 1 ==> s[0] != '0'
  {
    if n < 10 then [Digit(n)] else Decimal(n / 10) + [Digit(n % 10)]
  }

  /** The number a string of decimal digits denotes. */
  function NumeralValue(s: string): nat
    requires forall k :: 0 <= k < |s| ==> '0' <= s[k] <= '9'
  {
    if s == [] then 0 else 10 * NumeralValue(s[..|s| - 1]) + DigitValue(s[|s| - 1])
  }

  /** Reading back the numeral of `n` gives `n`. */
  lemma {:induction false} DecimalRoundTrip(n: nat)
    ensures NumeralValue(Decimal(n)) == n
    decreases n
  {
    var s := Decimal(n);
    if n < 10 {
      assert s[..0] == [];
    } else {
      DecimalRoundTrip(n / 10);
      assert s[..|s| - 1] == Decimal(n / 10);
    }
  }

  /** A non-empty string of decimal digits. */
  predicate IsNumeral(s: string) {
    1 <= |s| && forall k :: 0 <= k < |s| ==> '0' <= s[k] <= '9'
  }

  /** `str(i)` for an int: a sign exactly when negative, then a numeral without leading zeros that reads back as the magnitude. */
  function IntText(i: int): (r: string)
    ensures 1 <= |r| && (r[0] == '-' <==> i < 0)
    ensures 0 <= i ==> IsNumeral(r) && NumeralValue(r) == i
    ensures i < 0 ==> IsNumeral(r[1..]) && NumeralValue(r[1..]) == -i
    ensures var d := if i < 0 then r[1..] else r; |d| > 1 ==> d[0] != '0'
  {
    if i < 0 then
      NumeralText(-i);
      SignedText(Decimal(-i));
      "-" + Decimal(-i)
    else
      NumeralText(i);
      Decimal(i)
  }

  /** The numeral of `n` is a digit string that reads back as `n`. */
  lemma NumeralText(n: nat)
    ensures IsNumeral(Decimal(n)) && NumeralValue(Decimal(n)) == n && Decimal(n)[0] != '-'
  {
    DecimalRoundTrip(n);
  }

  /**
   * `str(v)`: `None`, `True`, `False`, a string itself, and for an int its sign
   * followed by a numeral, without leading zeros, that reads back as its magnitude.
   */
  function Str(v: Value): (r: string)
    ensures v.NoneValue? ==> r == "None"
    ensures v.StrValue? ==> r == v.s
    ensures v.IntValue? ==> 1 <= |r| && (r[0] == '-' <==> v.i < 0)
    ensures v.IntValue? && 0 <= v.i ==> IsNumeral(r) && NumeralValue(r) == v.i
    ensures v.IntValue? && v.i < 0 ==> IsNumeral(r[1..]) && NumeralValue(r[1..]) == -v.i
    ensures v.IntValue? ==> var d := if v.i < 0 then r[1..] else r; |d| > 1 ==> d[0] != '0'
  {
    match v
    case NoneValue => "None"
    case BoolValue(b) => if b then "True" else "False"
    case IntValue(i) => IntText(i)
    case StrValue(s) => s
    case Other(text, _) => text
  }

  lemma SignedText(digits: string)
    ensures ("-" + digits)[1..] == digits && ("-" + digits)[0] == '-'
  {
  }

  /** Two integers with the same text are equal, so a whitelisted id matches at most one integer group id. */
  lemma StrOfIntInjective(a: int, b: int)
    requires Str(IntValue(a)) == Str(IntValue(b))
    ensures a == b
  {
    var sa, sb := Str(IntValue(a)), Str(IntValue(b));
    if a < 0 && b < 0 {
      assert sa[1..] == sb[1..];
    }
  }

  /** An integer never prints as `None`, so a notice's integer group id cannot match the text of a missing one. */
  lemma IntNeverPrintsAsNone(i: int)
    ensures Str(IntValue(i)) != Str(NoneValue)
  {
    var s := Str(IntValue(i));
    assert s[0] == '-' || '0' <= s[0] <= '9';
    assert Str(NoneValue)[0] == 'N';
  }
}
