/**
 The cache key: a 64-bit hash together with its decimal digits, which are the
 bytes under which the store files the result.
 */
module KeyHash {

  const DIGITS := "0123456789"

  /** What std::to_string gives for an unsigned number. */
  function Decimal(n: nat): (s: string)
    ensures s != [] && forall c :: c in s ==> c in DIGITS
  {
    if n < 10 then [DIGITS[n]] else Decimal(n / 10) + [DIGITS[n % 10]]
  }

  function DigitValue(c: char): nat
    requires c in DIGITS
  {
    c as nat - '0' as nat
  }

  /** The number that a string of digits denotes. */
  function Number(s: string): nat
    requires forall c :: c in s ==> c in DIGITS
  {
    if s == [] then 0 else 10 * Number(s[..|s| - 1]) + DigitValue(s[|s| - 1])
  }

  lemma ValueOfDigit(d: nat)
    requires d < 10
    ensures DIGITS[d] in DIGITS && DigitValue(DIGITS[d]) == d
  {
  }

  /** Reading the digits back gives the number. */
  lemma {:induction false} DecimalRoundTrip(n: nat)
    ensures Number(Decimal(n)) == n
  {
    var s := Decimal(n);
    if n < 10 {
      ValueOfDigit(n);
      assert s[..0] == [];
    } else {
      ValueOfDigit(n % 10);
      DecimalRoundTrip(n / 10);
      assert s[..|s| - 1] == Decimal(n / 10);
    }
  }

  /** No leading zero, except for zero itself. */
  predicate IsNumeral(s: string)
  {
    s != [] && (forall c :: c in s ==> c in DIGITS) && (s[0] == '0' ==> |s| == 1)
  }

  lemma {:induction false} DecimalIsNumeral(n: nat)
    ensures IsNumeral(Decimal(n)) && (Decimal(n)[0] == '0' <==> n == 0)
  {
    if n >= 10 { DecimalIsNumeral(n / 10); }
  }

  lemma DigitOfValue(c: char)
    requires c in DIGITS
    ensures DigitValue(c) < 10 && DIGITS[DigitValue(c)] == c
  {
  }

  lemma {:induction false} NumeralIsPositive(s: string)
    requires IsNumeral(s) && s[0] != '0'
    ensures 0 < Number(s)
  {
    var last := |s| - 1;
    DigitOfValue(s[last]);
    if last == 0 {
      assert DigitValue(s[0]) != 0;
    } else {
      assert s[..last][0] == s[0];
      NumeralIsPositive(s[..last]);
    }
  }

  /** The only numeral that denotes a number is the one that std::to_string gives. */
  lemma {:induction false} OnlyNumeral(s: string)
    requires IsNumeral(s)
    ensures Decimal(Number(s)) == s
  {
    var last := |s| - 1;
    DigitOfValue(s[last]);
    if last == 0 {
      assert s[..0] == [];
    } else {
      var front := s[..last];
      assert front[0] == s[0] && IsNumeral(front);
      NumeralIsPositive(front);
      OnlyNumeral(front);
      assert s == front + [s[last]];
      assert Number(s) / 10 == Number(front) && Number(s) % 10 == DigitValue(s[last]);
    }
  }

  datatype KeyHash = KeyHash(hash: bv64, key: string)

  function KeyOf(hash: bv64): KeyHash
  {
    KeyHash(hash, Decimal(hash as nat))
  }

  /** The key is the numeral without leading zeros that denotes the hash, and no other. */
  lemma KeyIsTheNumeral(hash: bv64, s: string)
    requires IsNumeral(s)
    ensures KeyOf(hash).hash == hash && IsNumeral(KeyOf(hash).key)
    ensures KeyOf(hash).key == s <==> Number(s) == hash as nat
  {
    NumeralOf(hash as nat, s);
  }

  lemma NumeralOf(n: nat, s: string)
    requires IsNumeral(s)
    ensures IsNumeral(Decimal(n)) && (Decimal(n) == s <==> Number(s) == n)
  {
    DecimalIsNumeral(n);
    DecimalRoundTrip(n);
    OnlyNumeral(s);
  }

  lemma BitsOfNumber(hash: bv64)
    ensures (hash as nat) as bv64 == hash
  {
  }

  lemma SameNumberIffSameHash(a: bv64, b: bv64)
    ensures a as nat == b as nat <==> a == b
  {
    BitsOfNumber(a);
    BitsOfNumber(b);
  }

  lemma SameDigitsIffSameNumber(m: nat, n: nat)
    ensures Decimal(m) == Decimal(n) <==> m == n
  {
    DecimalRoundTrip(m);
    DecimalRoundTrip(n);
  }

  /** Two hashes are filed under the same bytes exactly when they are equal. */
  lemma SameKeyIffSameHash(a: bv64, b: bv64)
    ensures KeyOf(a).key == KeyOf(b).key <==> a == b
  {
    SameNumberIffSameHash(a, b);
    SameDigitsIffSameNumber(a as nat, b as nat);
  }
}
