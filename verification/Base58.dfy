/** Base58 text of a byte string, with a decoder as its specification. */
module Base58 {

  type Byte = x: int | 0 <= x < 256

  /** The alphabet, written in its six runs of consecutive characters. */
  const ALPHABET := "123456789" + "ABCDEFGH" + "JKLMN" + "PQRSTUVWXYZ" + "abcdefghijk" + "mnopqrstuvwxyz"

  // ---------------------------------------------------------------- positional numbers

  type Base = b: int | b == 58 || b == 256 witness 58

  /** The value of digits written most significant first. */
  function FromDigits(base: Base, digits: seq<nat>): nat {
    if digits == [] then 0
    else FromDigits(base, digits[..|digits| - 1]) * base + digits[|digits| - 1]
  }

  /** The digits of n, most significant first, without leading zeros. */
  function ToDigits(base: Base, n: nat): (digits: seq<nat>)
    ensures forall i :: 0 <= i < |digits| ==> digits[i] < base
  {
    if n == 0 then [] else ToDigits(base, n / base) + [n % base]
  }

  lemma {:induction false} FromToDigits(base: Base, n: nat)
    ensures FromDigits(base, ToDigits(base, n)) == n
    ensures n == 0 <==> ToDigits(base, n) == []
    ensures n != 0 ==> ToDigits(base, n)[0] != 0
  {
    if n != 0 {
      FromToDigits(base, n / base);
      assert ToDigits(base, n)[..|ToDigits(base, n)| - 1] == ToDigits(base, n / base);
    }
  }

  /** Digits in range with no leading zero. */
  predicate Canonical(base: Base, digits: seq<nat>) {
    && (forall i :: 0 <= i < |digits| ==> digits[i] < base)
    && (digits != [] ==> digits[0] != 0)
  }

  lemma DivideBack(base: Base, q: nat, r: nat)
    requires r < base
    ensures (q * base + r) / base == q && (q * base + r) % base == r
  {
    if base == 58 {
      assert (q * 58 + r) / 58 == q;
    } else {
      assert (q * 256 + r) / 256 == q;
    }
  }

  lemma {:induction false} ToFromDigits(base: Base, digits: seq<nat>)
    requires Canonical(base, digits)
    ensures ToDigits(base, FromDigits(base, digits)) == digits
    ensures digits != [] ==> 0 < FromDigits(base, digits)
  {
    if digits != [] {
      var n := |digits| - 1;
      ToFromDigits(base, digits[..n]);
      DivideBack(base, FromDigits(base, digits[..n]), digits[n]);
      assert digits == digits[..n] + [digits[n]];
    }
  }

  function Zeros(k: nat): (z: seq<nat>)
    ensures |z| == k && forall i :: 0 <= i < k ==> z[i] == 0
  {
    seq(k, _ => 0)
  }

  /** Leading zeros do not change the value. */
  lemma {:induction false} LeadingZerosVanish(base: Base, k: nat, digits: seq<nat>)
    ensures FromDigits(base, Zeros(k) + digits) == FromDigits(base, digits)
    decreases k + |digits|
  {
    if digits != [] {
      var n := |digits| - 1;
      LeadingZerosVanish(base, k, digits[..n]);
      assert (Zeros(k) + digits)[..k + n] == Zeros(k) + digits[..n];
    } else if 0 < k {
      LeadingZerosVanish(base, k - 1, []);
      assert (Zeros(k) + digits)[..k - 1] == Zeros(k - 1) + digits;
    }
  }

  // ---------------------------------------------------------------- leading elements

  /** How many elements at the front equal x. */
  function Leading<T(==)>(x: T, s: seq<T>): (k: nat)
    ensures k <= |s| && (forall i :: 0 <= i < k ==> s[i] == x) && (k < |s| ==> s[k] != x)
  {
    if s == [] || s[0] != x then 0 else 1 + Leading(x, s[1..])
  }

  lemma LeadingIs<T>(x: T, s: seq<T>, k: nat)
    requires k <= |s| && (forall i :: 0 <= i < k ==> s[i] == x) && (k < |s| ==> s[k] != x)
    ensures Leading(x, s) == k
  {
  }

  // ---------------------------------------------------------------- characters

  function Char(digit: nat): char
    requires digit < 58
  {
    ALPHABET[digit]
  }

  /** The position of an alphabet character. */
  function Digit(c: char): nat {
    if '1' <= c <= '9' then c as int - '1' as int
    else if 'A' <= c <= 'H' then 9 + (c as int - 'A' as int)
    else if 'J' <= c <= 'N' then 17 + (c as int - 'J' as int)
    else if 'P' <= c <= 'Z' then 22 + (c as int - 'P' as int)
    else if 'a' <= c <= 'k' then 33 + (c as int - 'a' as int)
    else if 'm' <= c <= 'z' then 44 + (c as int - 'm' as int)
    else 0
  }

  /** The character at a position, run by run. */
  function InRun(digit: nat): char
    requires digit < 58
  {
    if digit < 9 then Nth('1', digit) else if digit < 17 then Nth('A', digit - 9)
    else if digit < 22 then Nth('J', digit - 17) else if digit < 33 then Nth('P', digit - 22)
    else if digit < 44 then Nth('a', digit - 33) else Nth('m', digit - 44)
  }

  /** The character k places after c. */
  function Nth(c: char, k: nat): char
    requires c as int + k < 128
  {
    (c as int + k) as char
  }

  lemma CharInRun(digit: nat)
    requires digit < 58
    ensures Char(digit) == InRun(digit)
  {
    if digit < 9 {
      assert "123456789"[digit] == Nth('1', digit);
    } else if digit < 17 {
      assert "ABCDEFGH"[digit - 9] == Nth('A', digit - 9);
    } else if digit < 22 {
      assert "JKLMN"[digit - 17] == Nth('J', digit - 17);
    } else if digit < 33 {
      assert "PQRSTUVWXYZ"[digit - 22] == Nth('P', digit - 22);
    } else if digit < 44 {
      assert "abcdefghijk"[digit - 33] == Nth('a', digit - 33);
    } else {
      assert "mnopqrstuvwxyz"[digit - 44] == Nth('m', digit - 44);
    }
  }

  lemma DigitInRun(digit: nat)
    requires digit < 58
    ensures Digit(InRun(digit)) == digit
  {
  }

  /** The alphabet has no repeated character: its positions can be read back. */
  lemma CharDigit(digit: nat)
    requires digit < 58
    ensures Digit(Char(digit)) == digit
  {
    DigitInRun(digit);
    assert Char(digit) == InRun(digit) by {
      CharInRun(digit);
    }
  }

  predicate IsText(s: string) {
    forall i :: 0 <= i < |s| ==> s[i] in ALPHABET
  }

  lemma DigitChar(c: char)
    requires c in ALPHABET
    ensures Digit(c) < 58 && Char(Digit(c)) == c
  {
    var i :| 0 <= i < 58 && ALPHABET[i] == c;
    assert Char(i) == c;
    CharDigit(i);
  }

  function Chars(digits: seq<nat>): (s: string)
    requires forall i :: 0 <= i < |digits| ==> digits[i] < 58
    ensures |s| == |digits| && forall i :: 0 <= i < |digits| ==> s[i] == Char(digits[i])
  {
    seq(|digits|, i requires 0 <= i < |digits| => Char(digits[i]))
  }

  function Digits(s: string): (digits: seq<nat>)
    ensures |digits| == |s| && forall i :: 0 <= i < |s| ==> digits[i] == Digit(s[i])
  {
    seq(|s|, i requires 0 <= i < |s| => Digit(s[i]))
  }

  // ---------------------------------------------------------------- encoder and decoder

  function Ones(k: nat): (s: string)
    ensures |s| == k && forall i :: 0 <= i < k ==> s[i] == '1'
  {
    seq(k, _ => '1')
  }

  function Encode(value: seq<Byte>): string {
    Ones(Leading(0, value)) + Chars(ToDigits(58, FromDigits(256, value)))
  }

  /** One zero byte for every leading '1', then the bytes of the number. */
  function Decode(text: string): seq<nat> {
    var k := Leading('1', text);
    Zeros(k) + ToDigits(256, FromDigits(58, Digits(text[k..])))
  }

  /** Every byte string of any length is recovered, leading zero bytes included. */
  lemma DecodeEncode(value: seq<Byte>)
    ensures Decode(Encode(value)) == value
    ensures IsText(Encode(value))
  {
    var k := Leading(0, value);
    var rest: seq<nat> := value[k..];
    var number := FromDigits(256, value);
    assert value == Zeros(k) + rest;
    LeadingZerosVanish(256, k, rest);
    var digits := ToDigits(58, number);
    FromToDigits(58, number);
    var text := Encode(value);
    EncodedLeading(k, digits);
    assert text[k..] == Chars(digits);
    DigitsOfChars(digits);
    ToFromDigits(256, rest);
    CharsAreText(k, digits);
  }

  /** The '1's of the encoding are exactly the leading zero bytes. */
  lemma EncodedLeading(k: nat, digits: seq<nat>)
    requires Canonical(58, digits)
    ensures Leading('1', Ones(k) + Chars(digits)) == k
  {
    var text := Ones(k) + Chars(digits);
    if digits != [] {
      CharDigit(digits[0]);
      assert text[k] == Char(digits[0]);
      assert Digit('1') == 0;
    }
    LeadingIs('1', text, k);
  }

  lemma DigitsOfChars(digits: seq<nat>)
    requires forall i :: 0 <= i < |digits| ==> digits[i] < 58
    ensures Digits(Chars(digits)) == digits
  {
    forall i | 0 <= i < |digits|
      ensures Digits(Chars(digits))[i] == digits[i]
    {
      CharDigit(digits[i]);
    }
  }

  lemma CharsAreText(k: nat, digits: seq<nat>)
    requires forall i :: 0 <= i < |digits| ==> digits[i] < 58
    ensures IsText(Ones(k) + Chars(digits))
  {
    assert ALPHABET[0] == '1';
    forall i | 0 <= i < |digits|
      ensures Chars(digits)[i] in ALPHABET
    {
      assert Chars(digits)[i] == ALPHABET[digits[i]];
    }
  }

  lemma EncodeIsInjective(a: seq<Byte>, b: seq<Byte>)
    requires Encode(a) == Encode(b)
    ensures a == b
  {
    DecodeEncode(a);
    DecodeEncode(b);
  }

  /** Every text over the alphabet is the encoding of the bytes it decodes to. */
  lemma EncodeDecode(text: string)
    requires IsText(text)
    ensures Encode(AsBytes(Decode(text))) == text
  {
    var k := Leading('1', text);
    var digits := Digits(text[k..]);
    TailIsCanonical(text);
    DecodedValue(k, FromDigits(58, digits), AsBytes(Decode(text)));
    ToFromDigits(58, digits);
    CharsOfDigits(text[k..]);
    OnesInFront(text);
  }

  lemma OnesInFront(text: string)
    ensures text == Ones(Leading('1', text)) + text[Leading('1', text)..]
  {
  }

  /** The leading zeros and the value of zeros followed by the bytes of a number. */
  lemma DecodedValue(k: nat, number: nat, value: seq<Byte>)
    requires value == Zeros(k) + ToDigits(256, number)
    ensures Leading(0, value) == k && FromDigits(256, value) == number
  {
    FromToDigits(256, number);
    LeadingIs(0, value, k);
    LeadingZerosVanish(256, k, ToDigits(256, number));
  }

  lemma CharsOfDigits(text: string)
    requires IsText(text)
    ensures (forall i :: 0 <= i < |text| ==> Digits(text)[i] < 58) && Chars(Digits(text)) == text
  {
    forall i | 0 <= i < |text|
      ensures Digits(text)[i] < 58 && Char(Digits(text)[i]) == text[i]
    {
      DigitChar(text[i]);
    }
  }

  lemma TailIsCanonical(text: string)
    requires IsText(text)
    ensures Canonical(58, Digits(text[Leading('1', text)..]))
  {
    var k := Leading('1', text);
    forall i | k <= i < |text|
      ensures Digit(text[i]) < 58
      ensures i == k ==> Digit(text[i]) != 0
    {
      DigitChar(text[i]);
      assert Char(0) == '1';
    }
  }

  function AsBytes(s: seq<nat>): (b: seq<Byte>)
    requires forall i :: 0 <= i < |s| ==> s[i] < 256
    ensures |b| == |s| && forall i :: 0 <= i < |s| ==> b[i] == s[i]
  {
    seq(|s|, i requires 0 <= i < |s| => s[i])
  }

  // ---------------------------------------------------------------- the loop

  /** Repeated division by 58, writing the digits from the right. */
  method Base58Encode(value: seq<Byte>) returns (text: string)
    ensures text == Encode(value)
  {
    var leadingZeroes := Leading(0, value);
    var number := FromDigits(256, value);
    var encoded := "";
    while number != 0
      invariant Chars(ToDigits(58, FromDigits(256, value))) == Chars(ToDigits(58, number)) + encoded
    {
      ghost var before := number;
      var remainder := number % 58;
      number := number / 58;
      encoded := [ALPHABET[remainder]] + encoded;
      assert Chars(ToDigits(58, before)) == Chars(ToDigits(58, number)) + [Char(remainder)];
    }
    text := Ones(leadingZeroes) + encoded;
  }
}
