/** The field GF(2^8) of FIPS-197 section 4, and what the byte tables are in terms of it. */
module Gf {
  import opened AesTab

  /** Section 4.1. */
  function Add(a: bv8, b: bv8): bv8 { a ^ b }

  function Sum(a: bv8, b: bv8, c: bv8, d: bv8): bv8 { Add(Add(a, b), Add(c, d)) }

  /** Multiplication by {02}: one byte lane of `FFmulX`, `xtime` of section 4.2.1. */
  function XTime(b: bv8): bv8 {
    ((b & 0x7f) << 1) ^ ((b >> 7) * 0x1b)
  }

  /** Section 4.2: the product of two field elements, the sum of the {02}^k-multiples of `b` for
      the bits `k` of `a`. */
  function Mul(a: bv8, b: bv8): bv8 {
    Add(MulNibble(a, b), MulNibble(a >> 4, XTime(XTime(XTime(XTime(b))))))
  }

  function MulNibble(a: bv8, b: bv8): bv8 {
    var b1 := XTime(b);
    var b2 := XTime(b1);
    var b3 := XTime(b2);
    Sum(MulBit(a, b), MulBit(a >> 1, b1), MulBit(a >> 2, b2), MulBit(a >> 3, b3))
  }

  function MulBit(a: bv8, b: bv8): bv8 { (a & 1) * b }

  // The constant multiplications of the table generator.
  function FFmul02(b: bv8): bv8 { ((b & 0x7f) << 1) ^ (if b & 0x80 != 0 then 0x1b else 0) }
  function FFmul03(b: bv8): bv8 { Add(b, FFmul02(b)) }
  function FFmul09(b: bv8): bv8 { Add(b, FFmul02(FFmul02(FFmul02(b)))) }
  function FFmul0b(b: bv8): bv8 { Add(b, FFmul02(Add(b, FFmul02(FFmul02(b))))) }
  function FFmul0d(b: bv8): bv8 { Add(b, FFmul02(FFmul02(Add(b, FFmul02(b))))) }
  function FFmul0e(b: bv8): bv8 { FFmul02(Add(b, FFmul02(Add(b, FFmul02(b))))) }

  lemma FFmul02IsXTime(b: bv8)
    ensures FFmul02(b) == XTime(b)
  {
  }

  lemma NibbleProduct(a: bv8, b: bv8)
    requires a < 16
    ensures Mul(a, b) == MulNibble(a, b)
  {
    hide Add, XTime, MulBit;
    var high := XTime(XTime(XTime(XTime(b))));
    assert a >> 4 == 0;
    NibbleOfBits(0, high, 0, 0, 0, 0);
    SumOfZeros(MulNibble(a, b));
  }

  lemma SumOfZeros(a: bv8)
    ensures Sum(0, 0, 0, 0) == 0 && Add(a, 0) == a
  {
  }

  /** The product with a constant, given its bits one by one. */
  lemma NibbleOfBits(a: bv8, b: bv8, c0: bv8, c1: bv8, c2: bv8, c3: bv8)
    requires c0 == a & 1 && c1 == (a >> 1) & 1 && c2 == (a >> 2) & 1 && c3 == (a >> 3) & 1
    ensures var (b1, b2, b3) := (XTime(b), XTime(XTime(b)), XTime(XTime(XTime(b))));
            MulNibble(a, b) == Sum(if c0 == 0 then 0 else b, if c1 == 0 then 0 else b1,
                                   if c2 == 0 then 0 else b2, if c3 == 0 then 0 else b3)
  {
    hide Sum, XTime, MulBit;
    var b1 := XTime(b);
    var b2 := XTime(b1);
    var b3 := XTime(b2);
    MulBitCases(a, b);
    MulBitCases(a >> 1, b1);
    MulBitCases(a >> 2, b2);
    MulBitCases(a >> 3, b3);
  }

  /** The products that the two column mixes need, as sums of {02}^k-multiples. */
  lemma Products(b: bv8)
    ensures var (b1, b2, b3) := (XTime(b), XTime(XTime(b)), XTime(XTime(XTime(b))));
            && Mul(0x02, b) == Sum(0, b1, 0, 0) && Mul(0x03, b) == Sum(b, b1, 0, 0)
            && Mul(0x09, b) == Sum(b, 0, 0, b3) && Mul(0x0b, b) == Sum(b, b1, 0, b3)
            && Mul(0x0d, b) == Sum(b, 0, b2, b3) && Mul(0x0e, b) == Sum(0, b1, b2, b3)
  {
    hide Add, Sum, Mul, MulNibble, XTime;
    NibbleProduct(0x02, b);
    NibbleProduct(0x03, b);
    NibbleProduct(0x09, b);
    NibbleProduct(0x0b, b);
    NibbleProduct(0x0d, b);
    NibbleProduct(0x0e, b);
    NibbleOfBits(0x02, b, 0, 1, 0, 0);
    NibbleOfBits(0x03, b, 1, 1, 0, 0);
    NibbleOfBits(0x09, b, 1, 0, 0, 1);
    NibbleOfBits(0x0b, b, 1, 1, 0, 1);
    NibbleOfBits(0x0d, b, 1, 0, 1, 1);
    NibbleOfBits(0x0e, b, 0, 1, 1, 1);
  }

  // They are products by the constants they are named after.
  lemma FFmulForward(b: bv8)
    ensures FFmul02(b) == Mul(0x02, b) && FFmul03(b) == Mul(0x03, b)
  {
    hide Add, Mul, XTime, FFmul02;
    FFmul02IsXTime(b);
    Products(b);
    SumOfZeros(XTime(b));
    SumOfZeros(Add(b, XTime(b)));
    AddUnits(XTime(b), 0);
    AddUnits(0, 0);
  }

  lemma FFmulInverse(b: bv8)
    ensures FFmul09(b) == Mul(0x09, b) && FFmul0b(b) == Mul(0x0b, b)
    ensures FFmul0d(b) == Mul(0x0d, b) && FFmul0e(b) == Mul(0x0e, b)
  {
    hide Add, Mul, XTime, FFmul02;
    var b1 := XTime(b);
    var b2 := XTime(b1);
    var b3 := XTime(b2);
    FFmul02IsXTime(b);
    FFmul02IsXTime(b1);
    FFmul02IsXTime(b2);
    FFmul02IsXTime(Add(b, b1));
    FFmul02IsXTime(Add(b, b2));
    FFmul02IsXTime(Add(b1, b2));
    FFmul02IsXTime(Add(b, Add(b1, b2)));
    XTimeAdd(b, b1);
    XTimeAdd(b1, b2);
    XTimeAdd(b, b2);
    XTimeAdd(b, Add(b1, b2));
    Products(b);
    AddUnits(b, 0);
    AddUnits(b1, 0);
    AddUnits(b3, 0);
    AddAssoc(b, b1, b3);
    AddAssoc(b, b2, b3);
    AddAssoc(b1, b2, b3);
  }

  /** `fwd_affine`, and `inv_affine`, its inverse (section 5.1.1). */
  function FwdAffine(x: bv8): bv8 {
    var v := x as bv32;
    var w := v ^ (v << 1) ^ (v << 2) ^ (v << 3) ^ (v << 4);
    0x63 ^ ((w ^ (w >> 8)) & 0xff) as bv8
  }

  function InvAffine(x: bv8): bv8 {
    var v := x as bv32;
    var w := (v << 1) ^ (v << 3) ^ (v << 6);
    0x05 ^ ((w ^ (w >> 8)) & 0xff) as bv8
  }

  /** The affine maps undo each other. */
  lemma AffineInverts(s: bv8)
    ensures FwdAffine(InvAffine(s)) == s && InvAffine(FwdAffine(s)) == s
  {
  }

  /** The product bit by bit, without multiplications of bytes. */
  function Doubled(b: bv8): bv8 { (b << 1) ^ (b >> 7) ^ ((b >> 7) << 1) ^ ((b >> 7) << 3) ^ ((b >> 7) << 4) }

  function Times(bit: bv8, b: bv8): bv8 { if bit & 1 == 0 then 0 else b }

  function ByBits(a: bv8, b: bv8): bv8 {
    var b1 := Doubled(b);
    var b2 := Doubled(b1);
    var b3 := Doubled(b2);
    var b4 := Doubled(b3);
    var b5 := Doubled(b4);
    var b6 := Doubled(b5);
    var b7 := Doubled(b6);
    Add(Sum(Times(a, b), Times(a >> 1, b1), Times(a >> 2, b2), Times(a >> 3, b3)),
        Sum(Times(a >> 4, b4), Times(a >> 5, b5), Times(a >> 6, b6), Times(a >> 7, b7)))
  }

  lemma XTimeIsDoubled(b: bv8)
    ensures XTime(b) == Doubled(b)
  {
  }

  lemma MulIsByBits(a: bv8, b: bv8)
    ensures Mul(a, b) == ByBits(a, b)
  {
    hide Add, Sum, XTime, Doubled, MulBit, Times;
    var b1 := XTime(b);
    var b2 := XTime(b1);
    var b3 := XTime(b2);
    var b4 := XTime(b3);
    var b5 := XTime(b4);
    var b6 := XTime(b5);
    var b7 := XTime(b6);
    XTimeIsDoubled(b);
    XTimeIsDoubled(b1);
    XTimeIsDoubled(b2);
    XTimeIsDoubled(b3);
    XTimeIsDoubled(b4);
    XTimeIsDoubled(b5);
    XTimeIsDoubled(b6);
    BitIsTimes(a, b);
    BitIsTimes(a >> 1, b1);
    BitIsTimes(a >> 2, b2);
    BitIsTimes(a >> 3, b3);
    BitIsTimes(a >> 4, b4);
    BitIsTimes(a >> 5, b5);
    BitIsTimes(a >> 6, b6);
    BitIsTimes(a >> 7, b7);
    Shifts(a);
  }

  lemma BitIsTimes(a: bv8, b: bv8)
    ensures MulBit(a, b) == Times(a, b)
  {
    MulBitCases(a, b);
  }

  lemma Shifts(a: bv8)
    ensures (a >> 4) >> 1 == a >> 5 && (a >> 4) >> 2 == a >> 6 && (a >> 4) >> 3 == a >> 7
  {
  }

  /** The round constants are the powers of {02}. */
  function XPower(n: nat): bv8 { if n == 0 then 1 else XTime(XPower(n - 1)) }

  lemma {:induction false} RconIsXPower(i: nat)
    requires i < RCON_LENGTH
    ensures RconTab(i) == XPower(i)
  {
    if i > 0 {
      RconIsXPower(i - 1);
    }
  }

  // Addition is that of a group in which every element is its own opposite.
  lemma AddUnits(a: bv8, b: bv8)
    ensures Add(a, 0) == a && Add(0, a) == a && Add(a, a) == 0 && Add(Add(a, b), b) == a
  {
  }

  lemma AddComm(a: bv8, b: bv8)
    ensures Add(a, b) == Add(b, a)
  {
  }

  lemma AddAssoc(a: bv8, b: bv8, c: bv8)
    ensures Add(Add(a, b), c) == Add(a, Add(b, c))
  {
  }

  lemma AddSwap(a: bv8, b: bv8, x: bv8, y: bv8)
    ensures Add(Add(a, b), Add(x, y)) == Add(Add(a, x), Add(b, y))
  {
    hide Add;
    calc {
      Add(Add(a, b), Add(x, y));
      { AddAssoc(a, b, Add(x, y)); }
      Add(a, Add(b, Add(x, y)));
      { AddAssoc(b, x, y); AddComm(b, x); AddAssoc(x, b, y); }
      Add(a, Add(x, Add(b, y)));
      { AddAssoc(a, x, Add(b, y)); }
      Add(Add(a, x), Add(b, y));
    }
  }

  lemma SumSwap(a: bv8, b: bv8, c: bv8, d: bv8, x: bv8, y: bv8, z: bv8, u: bv8)
    ensures Sum(Add(a, x), Add(b, y), Add(c, z), Add(d, u)) == Add(Sum(a, b, c, d), Sum(x, y, z, u))
  {
    hide Add;
    AddSwap(a, x, b, y);
    AddSwap(c, z, d, u);
    AddSwap(Add(a, b), Add(x, y), Add(c, d), Add(z, u));
  }

  /** Sixteen terms in a square sum to the same by rows and by columns. */
  lemma SumTranspose(a0: bv8, a1: bv8, a2: bv8, a3: bv8, b0: bv8, b1: bv8, b2: bv8, b3: bv8,
                     c0: bv8, c1: bv8, c2: bv8, c3: bv8, d0: bv8, d1: bv8, d2: bv8, d3: bv8)
    ensures Sum(Sum(a0, a1, a2, a3), Sum(b0, b1, b2, b3), Sum(c0, c1, c2, c3), Sum(d0, d1, d2, d3)) ==
            Sum(Sum(a0, b0, c0, d0), Sum(a1, b1, c1, d1), Sum(a2, b2, c2, d2), Sum(a3, b3, c3, d3))
  {
    hide Add;
    SumSwap(a0, a1, a2, a3, b0, b1, b2, b3);
    SumSwap(c0, c1, c2, c3, d0, d1, d2, d3);
    SumSwap(Add(a0, b0), Add(a1, b1), Add(a2, b2), Add(a3, b3), Add(c0, d0), Add(c1, d1), Add(c2, d2), Add(c3, d3));
  }

  // Multiplication distributes over addition.
  lemma XTimeAdd(a: bv8, b: bv8)
    ensures XTime(Add(a, b)) == Add(XTime(a), XTime(b))
  {
  }

  lemma MulBitAdd(a: bv8, b: bv8, c: bv8)
    ensures MulBit(a, Add(b, c)) == Add(MulBit(a, b), MulBit(a, c))
  {
    hide *;
    MulBitCases(a, b);
    MulBitCases(a, c);
    MulBitCases(a, Add(b, c));
    AddUnits(0, 0);
  }

  lemma MulBitCases(a: bv8, b: bv8)
    ensures MulBit(a, b) == if a & 1 == 0 then 0 else b
  {
    assert a & 1 == 0 || a & 1 == 1;
  }

  lemma MulNibbleAdd(k: bv8, a: bv8, b: bv8)
    ensures MulNibble(k, Add(a, b)) == Add(MulNibble(k, a), MulNibble(k, b))
  {
    hide Add, Sum, XTime, MulBit;
    var a1, b1 := XTime(a), XTime(b);
    var a2, b2 := XTime(a1), XTime(b1);
    var a3, b3 := XTime(a2), XTime(b2);
    XTimeAdd(a, b);
    XTimeAdd(a1, b1);
    XTimeAdd(a2, b2);
    MulBitAdd(k, a, b);
    MulBitAdd(k >> 1, a1, b1);
    MulBitAdd(k >> 2, a2, b2);
    MulBitAdd(k >> 3, a3, b3);
    SumSwap(MulBit(k, a), MulBit(k >> 1, a1), MulBit(k >> 2, a2), MulBit(k >> 3, a3),
            MulBit(k, b), MulBit(k >> 1, b1), MulBit(k >> 2, b2), MulBit(k >> 3, b3));
  }

  lemma MulAdd(k: bv8, a: bv8, b: bv8)
    ensures Mul(k, Add(a, b)) == Add(Mul(k, a), Mul(k, b))
  {
    hide Add, MulNibble, XTime;
    var a1, b1 := XTime(a), XTime(b);
    var a2, b2 := XTime(a1), XTime(b1);
    var a3, b3 := XTime(a2), XTime(b2);
    XTimeAdd(a, b);
    XTimeAdd(a1, b1);
    XTimeAdd(a2, b2);
    XTimeAdd(a3, b3);
    MulNibbleAdd(k, a, b);
    MulNibbleAdd(k >> 4, XTime(a3), XTime(b3));
    AddSwap(MulNibble(k, a), MulNibble(k, b), MulNibble(k >> 4, XTime(a3)), MulNibble(k >> 4, XTime(b3)));
  }

  lemma MulSum(k: bv8, a: bv8, b: bv8, c: bv8, d: bv8)
    ensures Mul(k, Sum(a, b, c, d)) == Sum(Mul(k, a), Mul(k, b), Mul(k, c), Mul(k, d))
  {
    hide Add, Mul;
    MulAdd(k, Add(a, b), Add(c, d));
    MulAdd(k, a, b);
    MulAdd(k, c, d);
  }

  // Products by constants commute with doubling.
  lemma MulBitDoubled(a: bv8, b: bv8)
    ensures XTime(MulBit(a, b)) == MulBit(a, XTime(b))
  {
    hide MulBit, XTime;
    MulBitCases(a, b);
    MulBitCases(a, XTime(b));
    XTimeOfZero();
  }

  lemma XTimeOfZero()
    ensures XTime(0) == 0
  {
  }

  lemma XTimeSum(a: bv8, b: bv8, c: bv8, d: bv8)
    ensures XTime(Sum(a, b, c, d)) == Sum(XTime(a), XTime(b), XTime(c), XTime(d))
  {
    hide Add, XTime;
    XTimeAdd(Add(a, b), Add(c, d));
    XTimeAdd(a, b);
    XTimeAdd(c, d);
  }

  lemma MulNibbleDoubled(k: bv8, b: bv8)
    ensures XTime(MulNibble(k, b)) == MulNibble(k, XTime(b))
  {
    hide Sum, XTime, MulBit;
    var b1 := XTime(b);
    var b2 := XTime(b1);
    var b3 := XTime(b2);
    XTimeSum(MulBit(k, b), MulBit(k >> 1, b1), MulBit(k >> 2, b2), MulBit(k >> 3, b3));
    MulBitDoubled(k, b);
    MulBitDoubled(k >> 1, b1);
    MulBitDoubled(k >> 2, b2);
    MulBitDoubled(k >> 3, b3);
  }

  lemma MulDoubled(k: bv8, b: bv8)
    ensures XTime(Mul(k, b)) == Mul(k, XTime(b))
  {
    hide Add, XTime, MulNibble;
    var b4 := XTime(XTime(XTime(XTime(b))));
    XTimeAdd(MulNibble(k, b), MulNibble(k >> 4, b4));
    MulNibbleDoubled(k, b);
    MulNibbleDoubled(k >> 4, b4);
  }

  lemma MulCommutes(k: bv8, b: bv8)
    ensures Mul(2, Mul(k, b)) == Mul(k, Mul(2, b)) && Mul(3, Mul(k, b)) == Mul(k, Mul(3, b))
  {
    hide Add, Mul, XTime, FFmul02;
    FFmulForward(b);
    FFmulForward(Mul(k, b));
    FFmul02IsXTime(b);
    FFmul02IsXTime(Mul(k, b));
    MulDoubled(k, b);
    MulAdd(k, b, XTime(b));
  }

  /** The order of the terms does not matter. */
  lemma SumOrders(a: bv8, b: bv8, c: bv8, d: bv8)
    ensures Sum(a, b, c, d) == Sum(a, d, c, b) == Sum(b, a, d, c) == Sum(c, b, a, d) == Sum(d, c, b, a)
  {
    hide Add;
    AddComm(a, b);
    AddComm(c, d);
    AddComm(Add(a, b), Add(c, d));
    AddSwap(a, b, c, d);
    AddSwap(a, d, c, b);
    AddComm(b, d);
    AddComm(a, c);
    AddSwap(c, a, b, d);
    AddSwap(c, b, a, d);
  }
}
