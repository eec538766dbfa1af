/**
 * The JavaScript values that the grade history copies and formats, and the
 * conversion a template literal `${v}` applies to them. Numbers are integers
 * here: fractional scores are not modelled.
 */
module Values {

  datatype Value = Undefined | Null | Num(n: int) | Text(s: string)

  function DigitChar(d: nat): (c: char)
    requires d < 10
    ensures '0' <= c <= '9'
  {
    "0123456789"[d]
  }

  predicate IsDigits(s: string) {
    forall i :: 0 <= i < |s| ==> '0' <= s[i] <= '9'
  }

  /** Decimal digits of a natural number, most significant first, without leading zeros. */
  function Digits(n: nat): (s: string)
    ensures |s| >= 1
    ensures IsDigits(s)
    decreases n
  {
    if n < 10 then [DigitChar(n)] else Digits(n / 10) + [DigitChar(n % 10)]
  }

  /** Reads a string of decimal digits back as a number. */
  function FromDigits(s: string): nat
    requires IsDigits(s)
    decreases |s|
  {
    if s == [] then 0
    else
      FromDigits(s[..|s| - 1]) * 10 + (s[|s| - 1] - '0') as int
  }

  /** Reading back the printed digits recovers the number. */
  lemma {:induction false} DigitsRoundTrip(n: nat)
    ensures FromDigits(Digits(n)) == n
    decreases n
  {
    var s := Digits(n);
    if n < 10 {
      assert s[..0] == [];
    } else {
      DigitsRoundTrip(n / 10);
      assert s[..|s| - 1] == Digits(n / 10);
      assert s[|s| - 1] == DigitChar(n % 10);
    }
  }

  /** Template-literal conversion of a value to text. */
  function ToStr(v: Value): string {
    match v
    case Undefined => "undefined"
    case Null => "null"
    case Num(n) => if n < 0 then "-" + Digits(-n) else Digits(n)
    case Text(t) => t
  }

  /** A number's text starts with a minus sign exactly when it is negative. */
  lemma NumberTextSign(a: int)
    ensures ToStr(Num(a))[0] == '-' <==> a < 0
  {
  }

  /** Distinct numbers print as distinct texts. */
  lemma {:induction false} NumberTextInjective(a: int, b: int)
    ensures ToStr(Num(a)) == ToStr(Num(b)) <==> a == b
  {
    var sa, sb := ToStr(Num(a)), ToStr(Num(b));
    if sa == sb {
      NumberTextSign(a);
      NumberTextSign(b);
      var da, db := if a < 0 then -a else a, if b < 0 then -b else b;
      assert Digits(da) == Digits(db) by {
        if a < 0 {
          assert Digits(da) == sa[1..] && Digits(db) == sb[1..];
        }
      }
      DigitsRoundTrip(da);
      DigitsRoundTrip(db);
    }
  }

  /**
   * A value shown over a total, as the template literal `${numerator}/${total}`
   * builds it; RatioText is that text.
   */
  datatype Ratio = Ratio(numerator: Value, total: Value)

  function RatioText(r: Ratio): string {
    ToStr(r.numerator) + "/" + ToStr(r.total)
  }

  /** Two ratios over the same total read alike exactly when their numerators print alike. */
  lemma RatioTextCancels(a: Value, b: Value, total: Value)
    ensures RatioText(Ratio(a, total)) == RatioText(Ratio(b, total)) <==> ToStr(a) == ToStr(b)
  {
    if RatioText(Ratio(a, total)) == RatioText(Ratio(b, total)) {
      var x, y, t := ToStr(a), ToStr(b), ToStr(total);
      assert |x| == |y|;
      assert (x + "/" + t)[..|x|] == x;
      assert (y + "/" + t)[..|y|] == y;
    }
  }
}
