/**
  The few pieces of java.lang behaviour the bridge module relies on:
  null references for strings, the decimal rendering that string
  concatenation gives a non-negative int (`"Instance_" + size`), and the
  rendering of a boolean (`"" + flag`).
 */
module JavaLang {

  /** A Java reference that may be null; `NonNull(v)` is the reference to `v`. */
  datatype Nullable<T> = Null | NonNull(value: T)

  /** The character of a decimal digit. */
  function DigitChar(d: nat): (c: char)
    requires d < 10
    ensures '0' <= c <= '9'
  {
    ('0' as int + d) as char
  }

  /** `Integer.toString(n)` for a non-negative `n`: its decimal digits, most significant first, without leading zeros. */
  function Decimal(n: nat): (r: string)
    ensures 1 <= |r|
    ensures n < 10 <==> |r| == 1
    ensures forall i :: 0 <= i < |r| ==> '0' <= r[i] <= '9'
    ensures r[|r| - 1] == DigitChar(n % 10)
    ensures n >= 10 ==> r[0] != '0'
  {
    if n < 10 then [DigitChar(n)] else Decimal(n / 10) + [DigitChar(n % 10)]
  }

  /** Distinct numbers render as distinct strings. */
  lemma {:induction false} DecimalInjective(a: nat, b: nat)
    ensures Decimal(a) == Decimal(b) ==> a == b
  {
    if Decimal(a) == Decimal(b) {
      if a >= 10 && b >= 10 {
        var da, db := Decimal(a), Decimal(b);
        assert da[..|da| - 1] == Decimal(a / 10);
        assert db[..|db| - 1] == Decimal(b / 10);
        DecimalInjective(a / 10, b / 10);
        assert a % 10 == b % 10 by {
          assert DigitChar(a % 10) == da[|da| - 1] == DigitChar(b % 10);
        }
      } else {
        assert a < 10 && b < 10;
        assert DigitChar(a) == Decimal(a)[0] == DigitChar(b);
      }
    }
  }

  /** `"" + b` for a Java boolean. */
  function BoolText(b: bool): (r: string)
    ensures r == "true" || r == "false"
    ensures b <==> r == "true"
  {
    if b then "true" else "false"
  }
}
