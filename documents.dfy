/**
 * Record identifiers and the records the adapter handles.
 *
 * A MongoMapper document id reaches the adapter either as an Integer or as a
 * String, and the search response carries `_id` values of either kind too.
 * The adapter never compares ids directly: it compares their `to_s` forms.
 * `ToS` models Ruby's `to_s`, writing integers in decimal with a leading
 * `-` for negative values.
 */
module Documents {

  datatype Id = IntId(n: int) | StrId(s: string)

  /** What `as_indexed_json` returns: a field name to value mapping, taken as given. */
  type Document = map<string, string>

  /** A datastore record: its id and its serialised indexable form. */
  datatype Record = Record(id: Id, document: Document)

  function DigitChar(d: nat): (c: char)
    requires d < 10
    ensures '0' <= c <= '9'
  {
    (48 + d) as char
  }

  /** Integer#to_s for a non-negative integer. */
  function NatToDecimal(n: nat): (s: string)
    ensures 1 <= |s|
    ensures forall k :: 0 <= k < |s| ==> '0' <= s[k] <= '9'
    ensures n < 10 <==> |s| == 1
    decreases n
  {
    if n < 10 then [DigitChar(n)] else NatToDecimal(n / 10) + [DigitChar(n % 10)]
  }

  /** Integer#to_s. */
  function IntToDecimal(n: int): string
  {
    if n < 0 then "-" + NatToDecimal(-n) else NatToDecimal(n)
  }

  /** `id.to_s`, the form in which the adapter matches ids. */
  function ToS(id: Id): string
  {
    match id
    case IntId(n) => IntToDecimal(n)
    case StrId(s) => s
  }

  lemma {:induction false} NatToDecimalInjective(a: nat, b: nat)
    requires NatToDecimal(a) == NatToDecimal(b)
    ensures a == b
    decreases a
  {
    var s := NatToDecimal(a);
    if a >= 10 && b >= 10 {
      assert s[..|s| - 1] == NatToDecimal(a / 10);
      assert NatToDecimal(b)[..|s| - 1] == NatToDecimal(b / 10);
      NatToDecimalInjective(a / 10, b / 10);
      assert DigitChar(a % 10) == s[|s| - 1] == DigitChar(b % 10);
    } else if a < 10 && b < 10 {
      assert DigitChar(a) == s[0] == DigitChar(b);
    }
  }

  lemma LeadingMinusMeansNegative(n: int)
    ensures |IntToDecimal(n)| >= 1
    ensures IntToDecimal(n)[0] == '-' <==> n < 0
  {
  }

  /**
   * Distinct integers have distinct `to_s` forms, so ids of the same kind
   * never collide when the adapter compares them as strings.
   */
  lemma IntToDecimalInjective(a: int, b: int)
    requires IntToDecimal(a) == IntToDecimal(b)
    ensures a == b
  {
    var s := IntToDecimal(a);
    LeadingMinusMeansNegative(a);
    LeadingMinusMeansNegative(b);
    if a < 0 && b < 0 {
      assert s[1..] == NatToDecimal(-a);
      assert IntToDecimal(b)[1..] == NatToDecimal(-b);
      NatToDecimalInjective(-a, -b);
    } else if a >= 0 && b >= 0 {
      NatToDecimalInjective(a, b);
    }
  }

  /** A non-empty run of decimal digits. */
  predicate IsDigits(s: string)
  {
    |s| >= 1 && forall k :: 0 <= k < |s| ==> '0' <= s[k] <= '9'
  }

  /** Digits with no leading zero, except "0" itself. */
  predicate IsCanonicalNat(s: string)
  {
    IsDigits(s) && (s[0] == '0' ==> |s| == 1)
  }

  /** A canonical natural, or `-` followed by a canonical non-zero natural. */
  predicate IsCanonicalDecimal(s: string)
  {
    || IsCanonicalNat(s)
    || (|s| >= 2 && s[0] == '-' && IsCanonicalNat(s[1..]) && s[1] != '0')
  }

  /** Reads digits by Horner's rule, independently of how `NatToDecimal` writes them. */
  function DigitsValue(s: string): int
  {
    if s == [] then 0
    else DigitsValue(s[..|s| - 1]) * 10 + (s[|s| - 1] as int - 48)
  }

  /** Reads an optionally signed decimal. */
  function DecimalValue(s: string): int
  {
    if |s| > 0 && s[0] == '-' then -DigitsValue(s[1..]) else DigitsValue(s)
  }

  lemma {:induction false} DigitsValueRange(s: string)
    requires IsDigits(s)
    ensures DigitsValue(s) >= 0
    ensures s[0] != '0' ==> DigitsValue(s) >= 1
    decreases |s|
  {
    if |s| > 1 {
      var p := s[..|s| - 1];
      assert p[0] == s[0];
      DigitsValueRange(p);
    }
  }

  /** `NatToDecimal` writes a canonical natural that reads back as its argument. */
  lemma {:induction false} NatToDecimalReadsBack(n: nat)
    ensures IsCanonicalNat(NatToDecimal(n)) && DigitsValue(NatToDecimal(n)) == n
    decreases n
  {
    var s := NatToDecimal(n);
    if n < 10 {
      assert s[..0] == [];
    } else {
      var p := NatToDecimal(n / 10);
      NatToDecimalReadsBack(n / 10);
      assert s[..|s| - 1] == p;
      assert s[0] == p[0];
    }
  }

  /** A canonical natural is what `NatToDecimal` writes for its value. */
  lemma {:induction false} CanonicalNatWrittenBack(s: string)
    requires IsCanonicalNat(s)
    ensures DigitsValue(s) >= 0 && NatToDecimal(DigitsValue(s)) == s
    decreases |s|
  {
    DigitsValueRange(s);
    var d := s[|s| - 1] as int - 48;
    assert DigitChar(d) == s[|s| - 1];
    if |s| == 1 {
      assert s[..0] == [];
      assert s == [s[0]];
    } else {
      var p := s[..|s| - 1];
      assert p[0] == s[0];
      CanonicalNatWrittenBack(p);
      DigitsValueRange(p);
      var v := DigitsValue(s);
      assert v == DigitsValue(p) * 10 + d;
      assert v / 10 == DigitsValue(p) && v % 10 == d;
      assert s == p + [s[|s| - 1]];
    }
  }

  /** `IntToDecimal` writes a canonical decimal that reads back as its argument. */
  lemma IntToDecimalReadsBack(n: int)
    ensures IsCanonicalDecimal(IntToDecimal(n)) && DecimalValue(IntToDecimal(n)) == n
  {
    if n >= 0 {
      NatToDecimalReadsBack(n);
    } else {
      NatToDecimalReadsBack(-n);
      var t := IntToDecimal(n);
      assert t[1..] == NatToDecimal(-n);
      DigitsValueRange(t[1..]);
    }
  }

  /** A canonical decimal is what `IntToDecimal` writes for its value. */
  lemma CanonicalDecimalWrittenBack(s: string)
    requires IsCanonicalDecimal(s)
    ensures IntToDecimal(DecimalValue(s)) == s
  {
    if IsCanonicalNat(s) {
      CanonicalNatWrittenBack(s);
    } else {
      CanonicalNatWrittenBack(s[1..]);
      DigitsValueRange(s[1..]);
      assert s == "-" + s[1..];
    }
  }

  /**
   * The string ids that match an integer id under `to_s` are exactly the
   * canonical decimals that read back as that integer: "02", "+2" and "-0"
   * match no integer id.
   */
  lemma IntIdMatchesCanonicalDecimal(n: int, s: string)
    ensures ToS(IntId(n)) == ToS(StrId(s)) <==> IsCanonicalDecimal(s) && DecimalValue(s) == n
  {
    IntToDecimalReadsBack(n);
    if IsCanonicalDecimal(s) {
      CanonicalDecimalWrittenBack(s);
    }
  }

  /** Leading zeros, a plus sign and negative zero never match an integer id. */
  lemma NonCanonicalStringsMatchNoIntId(n: int)
    ensures ToS(IntId(n)) != "02" && ToS(IntId(n)) != "+2" && ToS(IntId(n)) != "-0"
  {
    IntIdMatchesCanonicalDecimal(n, "02");
    IntIdMatchesCanonicalDecimal(n, "+2");
    IntIdMatchesCanonicalDecimal(n, "-0");
  }
}
