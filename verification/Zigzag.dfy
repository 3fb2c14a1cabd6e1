/** Zigzag coding of signed 64-bit integers (zigzag.c). */
module Zigzag {
  import opened Bits

  const HALF := 0x8000_0000_0000_0000

  type Int64 = n: int | -HALF <= n < HALF

  /** Two's-complement representation of a signed integer. */
  function ToWord(n: int): Word {
    n % MAX_WORD
  }

  function FromWord(w: Word): Int64 {
    if w < HALF then w else w - MAX_WORD
  }

  /** The arithmetic shift by 63 spreads the sign bit over the word. */
  function SignSpread(n: Int64): Word {
    ToWord(n / HALF)
  }

  function Encode(n: Int64): nat {
    Xor(Shl(ToWord(n), 1), SignSpread(n))
  }

  function Decode(u: Word): nat {
    Xor(Shr(u, 1), ToWord(0 - And(u, 1)))
  }

  /** Shifting a negative number left by one wraps to its double. */
  lemma ShiftNegative(n: Int64)
    requires n < 0
    ensures Shl(ToWord(n), 1) == MAX_WORD + 2 * n && SignSpread(n) == MAX_WORD - 1
  {
    Pow2Values();
    assert ToWord(n) == MAX_WORD + n;
    ModUnique((MAX_WORD + n) * 2, MAX_WORD, 1, MAX_WORD + 2 * n);
  }

  lemma ShiftNonNegative(n: Int64)
    requires n >= 0
    ensures Shl(ToWord(n), 1) == 2 * n && SignSpread(n) == 0
  {
    Pow2Values();
    assert ToWord(n) == n;
    ModUnique(n * 2, MAX_WORD, 0, n * 2);
  }

  /** The bit form computes 2n for n >= 0 and -2n-1 below. */
  lemma EncodeArithmetic(n: Int64)
    ensures Encode(n) == if n >= 0 then 2 * n else -2 * n - 1
  {
    if n >= 0 {
      ShiftNonNegative(n);
    } else {
      ShiftNegative(n);
      XorWord(MAX_WORD + 2 * n);
    }
  }

  lemma XorWord(u: Word)
    ensures Xor(u, MAX_WORD - 1) == MAX_WORD - 1 - u
  {
    Pow2Values();
    XorOnes(u, 64);
  }

  lemma DecodeArithmetic(u: Word)
    ensures Decode(u) < MAX_WORD
    ensures FromWord(Decode(u)) == if u % 2 == 0 then u / 2 else -(u / 2) - 1
  {
    Pow2Values();
    AndMask(u, 1);
    ShrIsDivision(u, 1);
    if u % 2 == 0 {
      assert ToWord(0 - And(u, 1)) == 0;
    } else {
      assert ToWord(0 - And(u, 1)) == MAX_WORD - 1;
      XorWord(u / 2);
    }
  }

  /** Encoding and decoding are mutually inverse bijections on 64-bit words. */
  lemma DecodeEncode(n: Int64)
    ensures Encode(n) < MAX_WORD
    ensures Decode(Encode(n)) < MAX_WORD && FromWord(Decode(Encode(n))) == n
  {
    EncodeArithmetic(n);
    var u := Encode(n);
    DecodeArithmetic(u);
  }

  lemma EncodeDecode(u: Word)
    ensures Decode(u) < MAX_WORD
    ensures Encode(FromWord(Decode(u))) == u
  {
    DecodeArithmetic(u);
    var n := FromWord(Decode(u));
    EncodeArithmetic(n);
  }

  function Magnitude(n: int): nat {
    if n >= 0 then n else -n
  }

  /** Numbers of smaller magnitude get smaller codes. */
  lemma CodesFollowMagnitude(a: Int64, b: Int64)
    requires Magnitude(a) < Magnitude(b)
    ensures Encode(a) < Encode(b)
  {
    EncodeArithmetic(a);
    EncodeArithmetic(b);
  }
}
