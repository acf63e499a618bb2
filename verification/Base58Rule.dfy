/** The alphabet of Base58 and the number that a text stands for, without the encoder's own tables. */
module Base58Rule {
  import opened Base58

  /** Digits and letters without the ones that are easily confused. */
  predicate Readable(c: char) {
    || '1' <= c <= '9'
    || ('A' <= c <= 'Z' && c != 'I' && c != 'O')
    || ('a' <= c <= 'z' && c != 'l')
  }

  /** The alphabet is exactly the readable characters, in ascending order. */
  lemma AlphabetExactly(c: char, i: nat, j: nat)
    ensures |ALPHABET| == 58
    ensures c in ALPHABET <==> Readable(c)
    ensures i < j < 58 ==> ALPHABET[i] < ALPHABET[j]
  {
    if Readable(c) {
      CharInRun(Digit(c));
      assert ALPHABET[Digit(c)] == c;
    }
    if c in ALPHABET {
      var k :| 0 <= k < 58 && ALPHABET[k] == c;
      assert Char(k) == c;
      CharInRun(k);
    }
    if i < j < 58 {
      CharInRun(i);
      CharInRun(j);
      assert Char(i) == ALPHABET[i] && Char(j) == ALPHABET[j];
    }
  }

  function Power(base: nat, n: nat): nat {
    if n == 0 then 1 else base * Power(base, n - 1)
  }

  /** The number of a digit sequence is most significant first. */
  lemma {:induction false} FirstDigitIsMostSignificant(base: Base, d: nat, rest: seq<nat>)
    ensures FromDigits(base, [d] + rest) == d * Power(base, |rest|) + FromDigits(base, rest)
  {
    if rest == [] {
      assert [d] + rest == [d];
      assert [d][..0] == [];
      assert FromDigits(base, [d]) == FromDigits(base, []) * base + d;
    } else {
      var n := |rest| - 1;
      FirstDigitIsMostSignificant(base, d, rest[..n]);
      assert ([d] + rest)[..n + 1] == [d] + rest[..n];
      Distribute(base, d, Power(base, n), FromDigits(base, rest[..n]));
    }
  }

  lemma Distribute(base: nat, d: nat, p: nat, x: nat)
    ensures (d * p + x) * base == d * (base * p) + x * base
  {
    assert d * p * base == d * (base * p);
  }

  /** How many zero bytes or '1's come first. */
  ghost predicate Starts<T(!new)>(s: seq<T>, x: T, k: nat) {
    k <= |s| && (forall i :: 0 <= i < k ==> s[i] == x) && (k < |s| ==> s[k] != x)
  }

  /** The text has a '1' for every leading zero byte, and its other characters are the digits of the same
      number to base 58, by their position in the alphabet. */
  lemma TextIsNumber(value: seq<Byte>, k: nat)
    requires Starts(value, 0, k)
    ensures Starts(Encode(value), '1', k)
    ensures forall i :: k <= i < |Encode(value)| ==>
      Digit(Encode(value)[i]) < 58 && ALPHABET[Digit(Encode(value)[i])] == Encode(value)[i]
    ensures FromDigits(58, Digits(Encode(value)[k..])) == FromDigits(256, value)
  {
    LeadingIs(0, value, k);
    var digits := ToDigits(58, FromDigits(256, value));
    FromToDigits(58, FromDigits(256, value));
    EncodedLeading(k, digits);
    DigitsOfChars(digits);
    var text := Encode(value);
    assert text[k..] == Chars(digits);
    forall i | k <= i < |text|
      ensures Digit(text[i]) < 58 && ALPHABET[Digit(text[i])] == text[i]
    {
      assert text[i] == Char(digits[i - k]);
      CharDigit(digits[i - k]);
    }
  }

  /** One text written out: the byte 97 is 1 * 58 + 39. */
  lemma OneByteText()
    ensures Encode([97]) == "2g"
  {
    assert [97][..0] == [];
    assert FromDigits(256, [97]) == FromDigits(256, []) * 256 + 97 == 97;
    assert ToDigits(58, 97) == ToDigits(58, 1) + [39] && ToDigits(58, 1) == ToDigits(58, 0) + [1];
    CharInRun(1);
    CharInRun(39);
    assert Encode([97]) == [Char(1), Char(39)];
  }
}
