/** The macros of crypt/md5.cpp on single words, and what they compute bit by bit and as numbers. */
module Md5Words {
  type Word = bv32
  type Amount = bv6

  function F(x: Word, y: Word, z: Word): Word { (x & y) | (!x & z) }
  function G(x: Word, y: Word, z: Word): Word { (x & z) | (y & !z) }
  function H(x: Word, y: Word, z: Word): Word { x ^ y ^ z }
  function I(x: Word, y: Word, z: Word): Word { y ^ (x | !z) }

  function Plus(x: Word, y: Word): Word { x + y }

  function RotateLeft(x: Word, n: Amount): Word
    requires n < 32
  {
    (x << n) | (x >> (32 - n))
  }

  function Operation(a: Word, b: Word, mixed: Word, x: Word, s: Amount, ac: Word): Word
    requires s < 32
  {
    Plus(RotateLeft(Plus(a, Plus(Plus(mixed, x), ac)), s), b)
  }

  // Section 3.4 of RFC 1321, on bits and numbers.

  /** Each bit of `x` chooses between `y` and `z`. */
  function Choice(x: Word, y: Word, z: Word): Word { z ^ (x & (y ^ z)) }

  /** The auxiliary function of round `n`, counted from 0: in rounds 0 and 1 one argument chooses between the other
      two, in round 2 the bits are added, in round 3 the second is turned over unless the first is 0 and the
      third is 1. */
  function Auxiliary(n: nat, x: Word, y: Word, z: Word): Word {
    if n == 0 then Choice(x, y, z)
    else if n == 1 then Choice(z, x, y)
    else if n == 2 then Parity(x, y, z)
    else Fourth(x, y, z)
  }

  function Parity(x: Word, y: Word, z: Word): Word { x ^ (y ^ z) }

  function Fourth(x: Word, y: Word, z: Word): Word { !y ^ (!x & z) }

  // The macros are those.

  lemma BitsOfF(x: Word, y: Word, z: Word)
    ensures F(x, y, z) & x == y & x && F(x, y, z) & !x == z & !x
  {
  }

  lemma BitsOfG(x: Word, y: Word, z: Word)
    ensures G(x, y, z) & z == x & z && G(x, y, z) & !z == y & !z
  {
  }

  lemma BitsOfH(x: Word, y: Word, z: Word)
    ensures H(x, y, z) ^ x ^ y == z
  {
  }

  lemma BitsOfI(x: Word, y: Word, z: Word)
    ensures !(I(x, y, z) ^ y) == !x & z
  {
  }

  lemma BitsOfChoice(x: Word, y: Word, z: Word)
    ensures Choice(x, y, z) & x == y & x && Choice(x, y, z) & !x == z & !x
  {
  }

  lemma SameBits(a: Word, b: Word, x: Word)
    requires a & x == b & x && a & !x == b & !x
    ensures a == b
  {
  }

  lemma MacroIsF(x: Word, y: Word, z: Word)
    ensures F(x, y, z) == Choice(x, y, z)
  {
    hide F, Choice;
    BitsOfF(x, y, z);
    BitsOfChoice(x, y, z);
    SameBits(F(x, y, z), Choice(x, y, z), x);
  }

  lemma MacroIsG(x: Word, y: Word, z: Word)
    ensures G(x, y, z) == Choice(z, x, y)
  {
    hide G, Choice;
    BitsOfG(x, y, z);
    BitsOfChoice(z, x, y);
    SameBits(G(x, y, z), Choice(z, x, y), z);
  }

  lemma MacroIsH(x: Word, y: Word, z: Word)
    ensures H(x, y, z) == Parity(x, y, z)
  {
  }

  lemma MacroIsI(x: Word, y: Word, z: Word)
    ensures I(x, y, z) == Fourth(x, y, z)
  {
    hide I, Fourth;
    BitsOfI(x, y, z);
    BitsOfFourth(x, y, z);
    SameTurned(I(x, y, z), Fourth(x, y, z), y);
  }

  lemma BitsOfFourth(x: Word, y: Word, z: Word)
    ensures !(Fourth(x, y, z) ^ y) == !x & z
  {
  }

  lemma SameTurned(a: Word, b: Word, y: Word)
    requires !(a ^ y) == !(b ^ y)
    ensures a == b
  {
  }

  lemma RotateBy4(x: Word)
    ensures RotateLeft(x, 4) == x * 0x10 + x / 0x1000_0000
  {
  }

  lemma RotateBy5(x: Word)
    ensures RotateLeft(x, 5) == x * 0x20 + x / 0x800_0000
  {
  }

  lemma RotateBy6(x: Word)
    ensures RotateLeft(x, 6) == x * 0x40 + x / 0x400_0000
  {
  }

  lemma RotateBy7(x: Word)
    ensures RotateLeft(x, 7) == x * 0x80 + x / 0x200_0000
  {
  }

  lemma RotateBy9(x: Word)
    ensures RotateLeft(x, 9) == x * 0x200 + x / 0x80_0000
  {
  }

  lemma RotateBy10(x: Word)
    ensures RotateLeft(x, 10) == x * 0x400 + x / 0x40_0000
  {
  }

  lemma RotateBy11(x: Word)
    ensures RotateLeft(x, 11) == x * 0x800 + x / 0x20_0000
  {
  }

  lemma RotateBy12(x: Word)
    ensures RotateLeft(x, 12) == x * 0x1000 + x / 0x10_0000
  {
  }

  lemma RotateBy14(x: Word)
    ensures RotateLeft(x, 14) == x * 0x4000 + x / 0x4_0000
  {
  }

  lemma RotateBy15(x: Word)
    ensures RotateLeft(x, 15) == x * 0x8000 + x / 0x2_0000
  {
  }

  lemma RotateBy16(x: Word)
    ensures RotateLeft(x, 16) == x * 0x1_0000 + x / 0x1_0000
  {
  }

  lemma RotateBy17(x: Word)
    ensures RotateLeft(x, 17) == x * 0x2_0000 + x / 0x8000
  {
  }

  lemma RotateBy20(x: Word)
    ensures RotateLeft(x, 20) == x * 0x10_0000 + x / 0x1000
  {
  }

  lemma RotateBy21(x: Word)
    ensures RotateLeft(x, 21) == x * 0x20_0000 + x / 0x800
  {
  }

  lemma RotateBy22(x: Word)
    ensures RotateLeft(x, 22) == x * 0x40_0000 + x / 0x400
  {
  }

  lemma RotateBy23(x: Word)
    ensures RotateLeft(x, 23) == x * 0x80_0000 + x / 0x200
  {
  }

  /** `ROTATE_LEFT` as a number, for all amounts that are used: x 2^n + x / 2^(32 - n), modulo 2^32. */
  lemma RotateIs(x: Word)
    ensures RotateLeft(x, 4) == x * 0x10 + x / 0x1000_0000
    ensures RotateLeft(x, 5) == x * 0x20 + x / 0x800_0000
    ensures RotateLeft(x, 6) == x * 0x40 + x / 0x400_0000
    ensures RotateLeft(x, 7) == x * 0x80 + x / 0x200_0000
    ensures RotateLeft(x, 9) == x * 0x200 + x / 0x80_0000
    ensures RotateLeft(x, 10) == x * 0x400 + x / 0x40_0000
    ensures RotateLeft(x, 11) == x * 0x800 + x / 0x20_0000
    ensures RotateLeft(x, 12) == x * 0x1000 + x / 0x10_0000
    ensures RotateLeft(x, 14) == x * 0x4000 + x / 0x4_0000
    ensures RotateLeft(x, 15) == x * 0x8000 + x / 0x2_0000
    ensures RotateLeft(x, 16) == x * 0x1_0000 + x / 0x1_0000
    ensures RotateLeft(x, 17) == x * 0x2_0000 + x / 0x8000
    ensures RotateLeft(x, 20) == x * 0x10_0000 + x / 0x1000
    ensures RotateLeft(x, 21) == x * 0x20_0000 + x / 0x800
    ensures RotateLeft(x, 22) == x * 0x40_0000 + x / 0x400
    ensures RotateLeft(x, 23) == x * 0x80_0000 + x / 0x200
  {
    hide RotateLeft;
    RotateBy4(x);
    RotateBy5(x);
    RotateBy6(x);
    RotateBy7(x);
    RotateBy9(x);
    RotateBy10(x);
    RotateBy11(x);
    RotateBy12(x);
    RotateBy14(x);
    RotateBy15(x);
    RotateBy16(x);
    RotateBy17(x);
    RotateBy20(x);
    RotateBy21(x);
    RotateBy22(x);
    RotateBy23(x);
  }
}
