/** What exclusive or does to an octet, digit by digit. */
module Octets {
  import opened Bytes

  lemma Doubles(x: bv8)
    requires x < 128
    ensures FromBits(x << 1) == 2 * FromBits(x) && FromBits((x << 1) | 1) == 2 * FromBits(x) + 1
  {
  }

  lemma NoBits()
    ensures FromBits(0) == 0
  {
  }

  lemma SevenBits(x: bv8)
    requires FromBits(x) < 128
    ensures x < 128
  {
  }

  lemma {:induction false} BitsOf(a: byte) returns (x: bv8)
    ensures FromBits(x) == a
  {
    hide ToBits, FromBits;
    if a == 0 {
      x := 0;
      NoBits();
    } else {
      var y := BitsOf(a / 2);
      SevenBits(y);
      Doubles(y);
      x := if a % 2 == 0 then y << 1 else (y << 1) | 1;
    }
  }

  lemma BackAndThere(x: bv8)
    ensures ToBits(FromBits(x)) == x
  {
  }

  lemma ThereAndBack(a: byte)
    ensures FromBits(ToBits(a)) == a
  {
    hide ToBits, FromBits;
    var x := BitsOf(a);
    BackAndThere(x);
  }

  lemma LowBit(x: bv8)
    ensures FromBits(x & 1) == FromBits(x) % 2
  {
  }

  lemma HighBits(x: bv8)
    ensures FromBits(x >> 1) == FromBits(x) / 2
  {
  }

  lemma XorLowBit(x: bv8, y: bv8)
    ensures FromBits((x ^ y) & 1) == (FromBits(x & 1) + FromBits(y & 1)) % 2
  {
  }

  lemma XorHighBits(x: bv8, y: bv8)
    ensures (x ^ y) >> 1 == (x >> 1) ^ (y >> 1)
  {
  }

  lemma Halve(a: byte)
    ensures ToBits(a / 2) == ToBits(a) >> 1
  {
    hide ToBits, FromBits;
    ThereAndBack(a);
    HighBits(ToBits(a));
    BackAndThere(ToBits(a) >> 1);
  }

  lemma ByLowDigit(a: byte, b: byte, c: byte)
    requires c % 2 == (a % 2 + b % 2) % 2
    ensures c == (a + b) % 2 + 2 * (c / 2)
  {
  }

  lemma BitsPeel(x: bv8, y: bv8)
    ensures XorBits(x, y) == (FromBits(x) + FromBits(y)) % 2 + 2 * XorBits(x >> 1, y >> 1)
  {
    hide ToBits, FromBits;
    LowBit(x);
    LowBit(y);
    XorLowBit(x, y);
    XorHighBits(x, y);
    LowBit(x ^ y);
    HighBits(x ^ y);
    ByLowDigit(FromBits(x), FromBits(y), FromBits(x ^ y));
  }

  /** The lowest binary digit of an XOR is the sum of the digits mod 2; the rest
      is the XOR of the rest. */
  lemma XorPeels(a: byte, b: byte)
    ensures Xor(a, b) == (a + b) % 2 + 2 * Xor(a / 2, b / 2)
  {
    hide ToBits, FromBits, XorBits;
    Halve(a);
    Halve(b);
    BitsPeel(ToBits(a), ToBits(b));
    ThereAndBack(a);
    ThereAndBack(b);
  }

  lemma XorOfZeros()
    ensures Xor(0, 0) == 0
  {
  }

  /** One binary digit of the sum without carry, `weight` being its place
      value. */
  function Digit(a: byte, b: byte, weight: int): (d: int)
    requires weight > 0
    ensures 0 <= d <= 1
  {
    (a / weight + b / weight) % 2
  }

  /** Exclusive or written out in its eight binary digits. */
  function ByDigits(a: byte, b: byte): byte {
    Digit(a, b, 1) + 2 * Digit(a, b, 2) + 4 * Digit(a, b, 4) + 8 * Digit(a, b, 8)
    + 16 * Digit(a, b, 16) + 32 * Digit(a, b, 32) + 64 * Digit(a, b, 64) + 128 * Digit(a, b, 128)
  }

  lemma Halves(a: byte)
    ensures a / 2 / 1 == a / 2 && a / 2 / 2 == a / 4 && a / 2 / 4 == a / 8 && a / 2 / 8 == a / 16
    ensures a / 2 / 16 == a / 32 && a / 2 / 32 == a / 64 && a / 2 / 64 == a / 128 && a / 2 / 128 == 0
  {
  }

  lemma DigitHalves(a: byte, b: byte, w: int)
    requires w > 0 && a / 2 / w == a / (2 * w) && b / 2 / w == b / (2 * w)
    ensures Digit(a / 2, b / 2, w) == Digit(a, b, 2 * w)
  {
  }

  lemma EndDigits(a: byte, b: byte)
    ensures Digit(a, b, 1) == (a + b) % 2 && Digit(a / 2, b / 2, 128) == 0
  {
  }

  lemma DigitsPeel(a: byte, b: byte)
    ensures ByDigits(a, b) == (a + b) % 2 + 2 * ByDigits(a / 2, b / 2)
  {
    hide Digit;
    Halves(a);
    Halves(b);
    EndDigits(a, b);
    DigitHalves(a, b, 1);
    DigitHalves(a, b, 2);
    DigitHalves(a, b, 4);
    DigitHalves(a, b, 8);
    DigitHalves(a, b, 16);
    DigitHalves(a, b, 32);
    DigitHalves(a, b, 64);
  }

  lemma NoDigits()
    ensures ByDigits(0, 0) == 0
  {
  }

  /** The machine's exclusive or is the one written out in digits. */
  lemma {:induction false} XorByDigits(a: byte, b: byte)
    ensures Xor(a, b) == ByDigits(a, b)
    decreases a + b
  {
    hide Xor, ByDigits;
    if a == 0 && b == 0 {
      XorOfZeros();
      NoDigits();
    } else {
      XorPeels(a, b);
      DigitsPeel(a, b);
      XorByDigits(a / 2, b / 2);
    }
  }

  /** Masking undoes itself. */
  lemma {:induction false} XorUndone(a: byte, b: byte)
    ensures Xor(Xor(a, b), b) == a
    decreases a + b
  {
    hide Xor;
    if a == 0 && b == 0 {
      XorOfZeros();
    } else {
      XorPeels(a, b);
      XorPeels(Xor(a, b), b);
      XorUndone(a / 2, b / 2);
    }
  }

  lemma XorZero(a: byte)
    ensures Xor(a, 0) == a
  {
    hide ToBits, FromBits;
    XorNoBits(ToBits(a));
    BackAndThere(0);
    NoBits();
    ThereAndBack(a);
  }

  lemma XorNoBits(x: bv8)
    ensures x ^ 0 == x
  {
  }
}
