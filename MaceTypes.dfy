/**
 * The enumerations the registry is keyed on, and their renderings into
 * registry keys.
 *
 * DeviceType, DataType and NetMode are enums in the engine; the operator
 * definition carries data type and mode as plain `int` arguments that the
 * code casts back with `static_cast`, so all three are modelled as their
 * integer codes.
 */
module MaceTypes {

  type DeviceType = int
  type DataType = int
  type NetMode = int

  const CPU: DeviceType := 0
  const GPU: DeviceType := 2

  /** The value-initialised DataType, what `std::map::operator[]` yields for a missing key. */
  const DT_INVALID: DataType := 0
  const DT_FLOAT: DataType := 1
  const DT_UINT8: DataType := 2

  const INIT: NetMode := 0
  const NORMAL: NetMode := 1

  /** The decimal digit character for `d`. */
  function DigitChar(d: nat): (c: char)
    requires d < 10
    ensures '0' <= c <= '9'
  {
    ('0' as int + d) as char
  }

  /** The decimal digits of `n`, most significant first. */
  function Digits(n: nat): string
    decreases n
  {
    if n < 10 then [DigitChar(n)] else Digits(n / 10) + [DigitChar(n % 10)]
  }

  /** The digit string is non-empty and made of digits only. */
  lemma {:induction false} DigitsChars(n: nat)
    ensures |Digits(n)| >= 1
    ensures forall i :: 0 <= i < |Digits(n)| ==> '0' <= Digits(n)[i] <= '9'
    decreases n
  {
    if n >= 10 {
      DigitsChars(n / 10);
    }
  }

  /**
   * How an enum code is written into a registry key: its decimal value,
   * with a leading '-' when negative. This is what streaming an unscoped
   * enum such as DeviceType into a std::stringstream prints, and it stands
   * in for DataTypeToString, whose name table is not part of this model.
   */
  function Decimal(x: int): string {
    if x < 0 then "-" + Digits(-x) else Digits(x)
  }

  /** A rendering is non-empty and made of '-' and digits only; in particular it holds no 'T'. */
  lemma DecimalChars(x: int)
    ensures |Decimal(x)| >= 1
    ensures forall i :: 0 <= i < |Decimal(x)| ==> Decimal(x)[i] == '-' || '0' <= Decimal(x)[i] <= '9'
  {
    DigitsChars(if x < 0 then -x else x);
  }

  /** Distinct numbers have distinct digit strings. */
  lemma {:induction false} DigitsInjective(a: nat, b: nat)
    ensures Digits(a) == Digits(b) <==> a == b
    decreases a
  {
    if a >= 10 && b >= 10 {
      var da, db := Digits(a), Digits(b);
      assert da[..|da| - 1] == Digits(a / 10) && da[|da| - 1] == DigitChar(a % 10);
      assert db[..|db| - 1] == Digits(b / 10) && db[|db| - 1] == DigitChar(b % 10);
      DigitsInjective(a / 10, b / 10);
    } else if a >= 10 {
      assert |Digits(a)| == |Digits(a / 10)| + 1;
    } else if b >= 10 {
      assert |Digits(b)| == |Digits(b / 10)| + 1;
    }
  }

  /** The rendering is injective: the key keeps every code apart. */
  lemma DecimalInjective(x: int, y: int)
    ensures Decimal(x) == Decimal(y) <==> x == y
  {
    if x < 0 && y < 0 {
      assert Decimal(x)[1..] == Digits(-x);
      assert Decimal(y)[1..] == Digits(-y);
      DigitsInjective(-x, -y);
    } else if x < 0 || y < 0 {
      DigitsChars(if x < 0 then -x else x);
      DigitsChars(if y < 0 then -y else y);
      assert Decimal(x)[0] != Decimal(y)[0];
    } else {
      DigitsInjective(x, y);
    }
  }
}
