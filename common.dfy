/** Small shared vocabulary: optional values, HTTP responses and character counts. */
module Common {

  /** A value that may be absent (a JavaScript `undefined` property). */
  datatype Option<+T> = None | Some(value: T)

  /** An HTTP response as the handlers send it: a status code and a text body. */
  datatype Response = Response(status: nat, body: string)

  /** Number of occurrences of `c` in `s`. */
  function CountChar(c: char, s: string): (n: nat)
    ensures n <= |s|
    ensures n == 0 <==> c !in s
  {
    if s == [] then 0
    else (if s[0] == c then 1 else 0) + CountChar(c, s[1..])
  }

  lemma {:induction false} CountCharConcat(c: char, a: string, b: string)
    ensures CountChar(c, a + b) == CountChar(c, a) + CountChar(c, b)
  {
    if a == [] {
      assert a + b == b;
    } else {
      assert (a + b)[1..] == a[1..] + b;
      CountCharConcat(c, a[1..], b);
    }
  }

  predicate IsDigit(c: char) { '0' <= c <= '9' }

  predicate AllDigits(s: string) { forall i :: 0 <= i < |s| ==> IsDigit(s[i]) }

  function DigitValue(c: char): nat
    requires IsDigit(c)
  {
    c as int - '0' as int
  }

  function DecimalValue(s: string): nat
    requires AllDigits(s)
  {
    if s == [] then 0 else DecimalValue(s[..|s| - 1]) * 10 + DigitValue(s[|s| - 1])
  }

  /**
   * The decimal text of `n`: digits only, with no leading zero. JavaScript
   * writes a non-negative integer this way below 10^21 (a port is at most
   * 65535); larger numbers it writes in exponent notation, which is not modelled.
   */
  function DecimalString(n: nat): (s: string)
    ensures |s| > 0 && AllDigits(s)
    ensures n > 0 ==> s[0] != '0'
    ensures n == 0 ==> s == "0"
  {
    if n < 10 then [('0' as int + n) as char]
    else DecimalString(n / 10) + [('0' as int + n % 10) as char]
  }

  /** Reading the decimal text back gives the number. */
  lemma {:induction false} DecimalStringValue(n: nat)
    ensures DecimalValue(DecimalString(n)) == n
  {
    var s := DecimalString(n);
    if n >= 10 {
      DecimalStringValue(n / 10);
      assert s[..|s| - 1] == DecimalString(n / 10);
    } else {
      assert s[..|s| - 1] == [];
    }
  }

  /** Digits without a leading zero. */
  predicate Canonical(s: string) {
    |s| > 0 && AllDigits(s) && (|s| == 1 || s[0] != '0')
  }

  /** A canonical text of two or more digits stands for at least 10. */
  lemma {:induction false} CanonicalAtLeastTen(s: string)
    requires Canonical(s) && |s| >= 2
    ensures DecimalValue(s) >= 10
  {
    var p := s[..|s| - 1];
    if |s| > 2 {
      assert p[0] == s[0];
      CanonicalAtLeastTen(p);
    } else {
      assert DecimalValue(p) == DigitValue(s[0]) by {
        assert p[..|p| - 1] == [];
      }
    }
  }

  /** Two canonical texts with the same value are the same text. */
  lemma {:induction false} CanonicalUnique(s: string, t: string)
    requires Canonical(s) && Canonical(t) && DecimalValue(s) == DecimalValue(t)
    ensures s == t
  {
    if |s| >= 2 && |t| >= 2 {
      var ps, pt := s[..|s| - 1], t[..|t| - 1];
      var v := DecimalValue(s);
      assert v == DecimalValue(ps) * 10 + DigitValue(s[|s| - 1]);
      assert v == DecimalValue(pt) * 10 + DigitValue(t[|t| - 1]);
      assert DecimalValue(ps) == v / 10 && DecimalValue(pt) == v / 10;
      assert ps[0] == s[0] && pt[0] == t[0];
      CanonicalUnique(ps, pt);
      assert s == ps + [s[|s| - 1]] && t == pt + [t[|t| - 1]];
    } else if |s| >= 2 {
      assert t[..|t| - 1] == [];
      CanonicalAtLeastTen(s);
    } else if |t| >= 2 {
      assert s[..|s| - 1] == [];
      CanonicalAtLeastTen(t);
    } else {
      assert s[..|s| - 1] == [] && t[..|t| - 1] == [];
    }
  }
}
