/** The cipher of FIPS-197 section 5, on a state of four columns of four bytes. */
module Fips197 {
  import opened AesTab
  import opened Gf
  import opened SBoxes

  datatype Column = Column(b0: bv8, b1: bv8, b2: bv8, b3: bv8)
  datatype State = State(c0: Column, c1: Column, c2: Column, c3: Column)

  function AddColumn(x: Column, y: Column): Column {
    Column(Add(x.b0, y.b0), Add(x.b1, y.b1), Add(x.b2, y.b2), Add(x.b3, y.b3))
  }

  function SubColumn(c: Column): Column { Column(SBox(c.b0), SBox(c.b1), SBox(c.b2), SBox(c.b3)) }

  function InvSubColumn(c: Column): Column {
    Column(InvSBox(c.b0), InvSBox(c.b1), InvSBox(c.b2), InvSBox(c.b3))
  }

  function MixColumn(c: Column): Column {
    Column(Sum(Mul(2, c.b0), Mul(3, c.b1), c.b2, c.b3), Sum(c.b0, Mul(2, c.b1), Mul(3, c.b2), c.b3),
           Sum(c.b0, c.b1, Mul(2, c.b2), Mul(3, c.b3)), Sum(Mul(3, c.b0), c.b1, c.b2, Mul(2, c.b3)))
  }

  function InvMixColumn(c: Column): Column {
    Column(Sum(Mul(0x0e, c.b0), Mul(0x0b, c.b1), Mul(0x0d, c.b2), Mul(0x09, c.b3)),
           Sum(Mul(0x09, c.b0), Mul(0x0e, c.b1), Mul(0x0b, c.b2), Mul(0x0d, c.b3)),
           Sum(Mul(0x0d, c.b0), Mul(0x09, c.b1), Mul(0x0e, c.b2), Mul(0x0b, c.b3)),
           Sum(Mul(0x0b, c.b0), Mul(0x0d, c.b1), Mul(0x09, c.b2), Mul(0x0e, c.b3)))
  }

  // Sections 5.1.1 to 5.1.4 and 5.3.1 to 5.3.4.
  function AddRoundKey(s: State, k: State): State {
    State(AddColumn(s.c0, k.c0), AddColumn(s.c1, k.c1), AddColumn(s.c2, k.c2), AddColumn(s.c3, k.c3))
  }

  function SubBytes(s: State): State {
    State(SubColumn(s.c0), SubColumn(s.c1), SubColumn(s.c2), SubColumn(s.c3))
  }

  function InvSubBytes(s: State): State {
    State(InvSubColumn(s.c0), InvSubColumn(s.c1), InvSubColumn(s.c2), InvSubColumn(s.c3))
  }

  function ShiftRows(s: State): State {
    State(Column(s.c0.b0, s.c1.b1, s.c2.b2, s.c3.b3), Column(s.c1.b0, s.c2.b1, s.c3.b2, s.c0.b3),
          Column(s.c2.b0, s.c3.b1, s.c0.b2, s.c1.b3), Column(s.c3.b0, s.c0.b1, s.c1.b2, s.c2.b3))
  }

  function InvShiftRows(s: State): State {
    State(Column(s.c0.b0, s.c3.b1, s.c2.b2, s.c1.b3), Column(s.c1.b0, s.c0.b1, s.c3.b2, s.c2.b3),
          Column(s.c2.b0, s.c1.b1, s.c0.b2, s.c3.b3), Column(s.c3.b0, s.c2.b1, s.c1.b2, s.c0.b3))
  }

  function MixColumns(s: State): State {
    State(MixColumn(s.c0), MixColumn(s.c1), MixColumn(s.c2), MixColumn(s.c3))
  }

  function InvMixColumns(s: State): State {
    State(InvMixColumn(s.c0), InvMixColumn(s.c1), InvMixColumn(s.c2), InvMixColumn(s.c3))
  }

  /** Section 5.1: `w` holds one round key for each of the rounds 0 to `|w| - 1`. */
  function Cipher(s: State, w: seq<State>): State
    requires |w| >= 2
  {
    var nr := |w| - 1;
    AddRoundKey(ShiftRows(SubBytes(Rounds(AddRoundKey(s, w[0]), w, nr - 1))), w[nr])
  }

  /** The full rounds 1 to `n`. */
  function Rounds(s: State, w: seq<State>, n: nat): State
    requires n < |w|
  {
    if n == 0 then s
    else AddRoundKey(MixColumns(ShiftRows(SubBytes(Rounds(s, w, n - 1)))), w[n])
  }

  /** Section 5.3. */
  function InvCipher(s: State, w: seq<State>): State
    requires |w| >= 2
  {
    var nr := |w| - 1;
    AddRoundKey(InvSubBytes(InvShiftRows(InvRounds(AddRoundKey(s, w[nr]), w, nr - 1))), w[0])
  }

  /** The full inverse rounds `n` down to 1. */
  function InvRounds(s: State, w: seq<State>, n: nat): State
    requires n < |w|
    decreases n
  {
    if n == 0 then s
    else InvRounds(InvMixColumns(AddRoundKey(InvSubBytes(InvShiftRows(s)), w[n])), w, n - 1)
  }

  /** Section 5.3.5: the equivalent inverse cipher, its keys in the order in which it uses them. */
  function EqInvCipher(s: State, dw: seq<State>): State
    requires |dw| >= 2
  {
    var nr := |dw| - 1;
    AddRoundKey(InvShiftRows(InvSubBytes(EqInvRounds(AddRoundKey(s, dw[0]), dw, nr - 1))), dw[nr])
  }

  function EqInvRounds(s: State, dw: seq<State>, n: nat): State
    requires n < |dw|
  {
    if n == 0 then s
    else AddRoundKey(InvMixColumns(InvShiftRows(InvSubBytes(EqInvRounds(s, dw, n - 1)))), dw[n])
  }

  /** Section 5.2, for a key of `|key|` words: the first `n` words of its expansion. */
  function KeyExpansion(key: seq<Column>, n: nat): (w: seq<Column>)
    requires |key| >= 1
    ensures |w| == n
    decreases n
  {
    if n <= |key| then key[..n]
    else
      var w := KeyExpansion(key, n - 1);
      w + [AddColumn(w[n - 1 - |key|], ScheduleWord(w[n - 2], |key|, n - 1))]
  }

  /** What word `i` of a schedule adds to the word `nk` before it, `t` being word `i - 1`. */
  function ScheduleWord(t: Column, nk: nat, i: nat): Column
    requires nk >= 1 && i >= nk
  {
    if i % nk == 0 then AddColumn(SubColumn(Rotated(t)), Column(XPower(RconIndex(nk, i)), 0, 0, 0))
    else if nk > 6 && i % nk == 4 then SubColumn(t)
    else t
  }

  /** The exponent of the round constant of word `i`. */
  function RconIndex(nk: nat, i: nat): nat
    requires nk >= 1 && i >= nk
  {
    assert i / nk >= 1;
    i / nk - 1
  }

  /** `RotWord`: the bytes of a column move up one place. */
  function Rotated(c: Column): Column { Column(c.b1, c.b2, c.b3, c.b0) }

  /** The schedule of the equivalent inverse cipher: the round keys backwards, all but the first
      and the last of them through the inverse column mix. */
  ghost predicate IsInverseSchedule(dw: seq<State>, w: seq<State>) {
    && |dw| == |w| >= 2
    && dw[0] == w[|w| - 1] && dw[|w| - 1] == w[0]
    && forall i | 0 < i < |w| - 1 :: dw[i] == InvMixColumns(w[|w| - 1 - i])
  }

  // The transformations by index, row `r` and column `c` as in section 3.4.

  function Row(c: Column, r: nat): bv8
    requires r < 4
  {
    if r == 0 then c.b0 else if r == 1 then c.b1 else if r == 2 then c.b2 else c.b3
  }

  function ColumnOf(s: State, c: nat): Column
    requires c < 4
  {
    if c == 0 then s.c0 else if c == 1 then s.c1 else if c == 2 then s.c2 else s.c3
  }

  function Entry(s: State, r: nat, c: nat): bv8
    requires r < 4 && c < 4
  {
    Row(ColumnOf(s, c), r)
  }

  /** Row `r` moves `r` places to the left. */
  lemma ShiftRowsByIndex(s: State, r: nat, c: nat)
    requires r < 4 && c < 4
    ensures Entry(ShiftRows(s), r, c) == Entry(s, r, (c + r) % 4)
  {
    if r == 0 {
      assert (c + r) % 4 == c;
    } else if r == 1 {
    } else if r == 2 {
    }
  }

  /** The S-box on each byte alone. */
  lemma SubBytesByIndex(s: State, r: nat, c: nat)
    requires r < 4 && c < 4
    ensures Entry(SubBytes(s), r, c) == SBox(Entry(s, r, c))
  {
    hide SBox, Row, SubColumn;
    RowOfSub(ColumnOf(s, c), r);
  }

  lemma RowOfSub(c: Column, r: nat)
    requires r < 4
    ensures Row(SubColumn(c), r) == SBox(Row(c, r))
  {
    hide SBox;
  }

  /** Each byte of the round key to its byte of the state. */
  lemma AddRoundKeyByIndex(s: State, k: State, r: nat, c: nat)
    requires r < 4 && c < 4
    ensures Entry(AddRoundKey(s, k), r, c) == Add(Entry(s, r, c), Entry(k, r, c))
  {
    hide Add, Row, AddColumn;
    RowOfSum(ColumnOf(s, c), ColumnOf(k, c), r);
  }

  lemma RowOfSum(x: Column, y: Column, r: nat)
    requires r < 4
    ensures Row(AddColumn(x, y), r) == Add(Row(x, r), Row(y, r))
  {
    hide Add;
  }

  /** The coefficients of the polynomial a(x) of section 4.3, the constant one first. */
  function Coefficient(i: nat): bv8
    requires i < 4
  {
    if i == 0 then 0x02 else if i == 3 then 0x03 else 0x01
  }

  /** Each column times a(x) modulo x^4 + 1: the product of the coefficients `i` and `j` goes to row `i + j`,
      modulo 4. */
  lemma MixColumnsByIndex(s: State, r: nat, c: nat)
    requires r < 4 && c < 4
    ensures Entry(MixColumns(s), r, c) ==
            Sum(Mul(Coefficient(r), Entry(s, 0, c)), Mul(Coefficient((r + 3) % 4), Entry(s, 1, c)),
                Mul(Coefficient((r + 2) % 4), Entry(s, 2, c)), Mul(Coefficient((r + 1) % 4), Entry(s, 3, c)))
  {
    hide Sum, Mul;
    MulByOne(Entry(s, 0, c));
    MulByOne(Entry(s, 1, c));
    MulByOne(Entry(s, 2, c));
    MulByOne(Entry(s, 3, c));
  }

  lemma MulByOne(b: bv8)
    ensures Mul(0x01, b) == b
  {
    hide Add, Sum, Mul, XTime, MulNibble;
    NibbleProduct(0x01, b);
    NibbleOfBits(0x01, b, 1, 0, 0, 0);
    SumOfOne(b);
  }

  /** The bytes of a word as one number, the first one highest. */
  function Big(c: Column): bv32 { Number(c.b0, c.b1, c.b2, c.b3) }

  function Number(b0: bv8, b1: bv8, b2: bv8, b3: bv8): bv32 {
    (b0 as bv32 << 24) | (b1 as bv32 << 16) | (b2 as bv32 << 8) | (b3 as bv32)
  }

  function TurnedBy8(w: bv32): bv32 { (w << 8) | (w >> 24) }

  /** `RotWord` turns that number left by eight bits. */
  lemma RotatedIsTurned(c: Column)
    ensures Big(Rotated(c)) == TurnedBy8(Big(c))
  {
    hide Number, TurnedBy8;
    NumberTurned(c.b0, c.b1, c.b2, c.b3);
  }

  lemma NumberTurned(b0: bv8, b1: bv8, b2: bv8, b3: bv8)
    ensures Number(b1, b2, b3, b0) == TurnedBy8(Number(b0, b1, b2, b3))
  {
  }

  // What each transformation undoes or commutes with.

  /** A sum of copies of one element: they cancel in pairs. */
  lemma Copies(v: bv8, c0: bool, c1: bool, c2: bool, c3: bool)
    ensures Sum(if c0 then v else 0, if c1 then v else 0, if c2 then v else 0, if c3 then v else 0) ==
            if (c0 != c1) != (c2 != c3) then v else 0
  {
    hide Add;
    AddUnits(v, 0);
    AddUnits(0, v);
    AddUnits(0, 0);
    AddUnits(v, v);
  }

  lemma RestDiagonal(b: bv8, b1: bv8, b2: bv8, b3: bv8)
    ensures Add(Sum(b, b1, b2, b3), Sum(b1, b2, b3, 0)) == b
  {
  }

  lemma MixDiagonal(b: bv8)
    ensures Sum(Mul(0x0e, Mul(2, b)), Mul(0x0b, b), Mul(0x0d, b), Mul(0x09, Mul(3, b))) == b
  {
    hide Add, Sum, Mul, XTime;
    var b1 := XTime(b);
    var b2 := XTime(b1);
    var b3 := XTime(b2);
    var b4 := XTime(b3);
    ProductsOfProducts(b);
    AddUnits(Sum(0, b2, b3, b4), 0);
    AddUnits(Sum(b, b1, 0, b3), 0);
    AddUnits(Sum(b, 0, b2, b3), 0);
    AddUnits(0, 0);
    Copies(0, false, false, false, false);
    SumSwap(0, Sum(b, b1, 0, b3), Sum(b, 0, b2, b3), Sum(b, 0, 0, b3),
            Sum(0, b2, b3, b4), 0, 0, Sum(b1, 0, 0, b4));
    SumTranspose(0, 0, 0, 0, b, b1, 0, b3,
                 b, 0, b2, b3, b, 0, 0, b3);
    Copies(b, false, true, true, true);
    Copies(b1, false, true, false, false);
    Copies(b2, false, false, true, false);
    Copies(b3, false, true, true, true);
    SumTranspose(0, b2, b3, b4, 0, 0, 0, 0,
                 0, 0, 0, 0, b1, 0, 0, b4);
    Copies(b1, false, false, false, true);
    Copies(b2, true, false, false, false);
    Copies(b3, true, false, false, false);
    Copies(b4, true, false, false, true);
    RestDiagonal(b, b1, b2, b3);
  }

  lemma RestOffDiagonal1(b: bv8, b1: bv8, b2: bv8, b3: bv8)
    ensures Add(Sum(0, b1, 0, b3), Sum(b1, 0, b3, 0)) == 0
  {
  }

  lemma MixOffDiagonal1(b: bv8)
    ensures Sum(Mul(0x0e, Mul(3, b)), Mul(0x0b, Mul(2, b)), Mul(0x0d, b), Mul(0x09, b)) == 0
  {
    hide Add, Sum, Mul, XTime;
    var b1 := XTime(b);
    var b2 := XTime(b1);
    var b3 := XTime(b2);
    var b4 := XTime(b3);
    ProductsOfProducts(b);
    AddUnits(Sum(b1, b2, 0, b4), 0);
    AddUnits(Sum(b, 0, b2, b3), 0);
    AddUnits(Sum(b, 0, 0, b3), 0);
    AddUnits(0, 0);
    Copies(0, false, false, false, false);
    SumSwap(Sum(0, b1, b2, b3), 0, Sum(b, 0, b2, b3), Sum(b, 0, 0, b3),
            Sum(0, b2, b3, b4), Sum(b1, b2, 0, b4), 0, 0);
    SumTranspose(0, b1, b2, b3, 0, 0, 0, 0,
                 b, 0, b2, b3, b, 0, 0, b3);
    Copies(b, false, false, true, true);
    Copies(b1, true, false, false, false);
    Copies(b2, true, false, true, false);
    Copies(b3, true, false, true, true);
    SumTranspose(0, b2, b3, b4, b1, b2, 0, b4,
                 0, 0, 0, 0, 0, 0, 0, 0);
    Copies(b1, false, true, false, false);
    Copies(b2, true, true, false, false);
    Copies(b3, true, false, false, false);
    Copies(b4, true, true, false, false);
    RestOffDiagonal1(b, b1, b2, b3);
  }

  lemma RestOffDiagonal2(b: bv8, b1: bv8, b2: bv8, b3: bv8)
    ensures Add(Sum(0, 0, b2, b3), Sum(0, b2, b3, 0)) == 0
  {
  }

  lemma MixOffDiagonal2(b: bv8)
    ensures Sum(Mul(0x0e, b), Mul(0x0b, Mul(3, b)), Mul(0x0d, Mul(2, b)), Mul(0x09, b)) == 0
  {
    hide Add, Sum, Mul, XTime;
    var b1 := XTime(b);
    var b2 := XTime(b1);
    var b3 := XTime(b2);
    var b4 := XTime(b3);
    ProductsOfProducts(b);
    AddUnits(Sum(0, b1, b2, b3), 0);
    AddUnits(Sum(b1, 0, b3, b4), 0);
    AddUnits(Sum(b, 0, 0, b3), 0);
    AddUnits(0, 0);
    Copies(0, false, false, false, false);
    SumSwap(Sum(0, b1, b2, b3), Sum(b, b1, 0, b3), 0, Sum(b, 0, 0, b3),
            0, Sum(b1, b2, 0, b4), Sum(b1, 0, b3, b4), 0);
    SumTranspose(0, b1, b2, b3, b, b1, 0, b3,
                 0, 0, 0, 0, b, 0, 0, b3);
    Copies(b, false, true, false, true);
    Copies(b1, true, true, false, false);
    Copies(b2, true, false, false, false);
    Copies(b3, true, true, false, true);
    SumTranspose(0, 0, 0, 0, b1, b2, 0, b4,
                 b1, 0, b3, b4, 0, 0, 0, 0);
    Copies(b1, false, true, true, false);
    Copies(b2, false, true, false, false);
    Copies(b3, false, false, true, false);
    Copies(b4, false, true, true, false);
    RestOffDiagonal2(b, b1, b2, b3);
  }

  lemma RestOffDiagonal3(b: bv8, b1: bv8, b2: bv8, b3: bv8)
    ensures Add(Sum(0, 0, 0, b3), Sum(0, 0, b3, 0)) == 0
  {
  }

  lemma MixOffDiagonal3(b: bv8)
    ensures Sum(Mul(0x0e, b), Mul(0x0b, b), Mul(0x0d, Mul(3, b)), Mul(0x09, Mul(2, b))) == 0
  {
    hide Add, Sum, Mul, XTime;
    var b1 := XTime(b);
    var b2 := XTime(b1);
    var b3 := XTime(b2);
    var b4 := XTime(b3);
    ProductsOfProducts(b);
    AddUnits(Sum(0, b1, b2, b3), 0);
    AddUnits(Sum(b, b1, 0, b3), 0);
    AddUnits(Sum(b1, 0, 0, b4), 0);
    AddUnits(0, 0);
    Copies(0, false, false, false, false);
    SumSwap(Sum(0, b1, b2, b3), Sum(b, b1, 0, b3), Sum(b, 0, b2, b3), 0,
            0, 0, Sum(b1, 0, b3, b4), Sum(b1, 0, 0, b4));
    SumTranspose(0, b1, b2, b3, b, b1, 0, b3,
                 b, 0, b2, b3, 0, 0, 0, 0);
    Copies(b, false, true, true, false);
    Copies(b1, true, true, false, false);
    Copies(b2, true, false, true, false);
    Copies(b3, true, true, true, false);
    SumTranspose(0, 0, 0, 0, 0, 0, 0, 0,
                 b1, 0, b3, b4, b1, 0, 0, b4);
    Copies(b1, false, false, true, true);
    Copies(b2, false, false, false, false);
    Copies(b3, false, false, true, false);
    Copies(b4, false, false, true, true);
    RestOffDiagonal3(b, b1, b2, b3);
  }

  /** The products of `b`, 2`b` and 3`b` as sums of {02}^k-multiples of `b`. */
  lemma ProductsOfProducts(b: bv8)
    ensures var b1 := XTime(b);
            var b2 := XTime(b1);
            var b3 := XTime(b2);
            var b4 := XTime(b3);
            && Mul(0x09, b) == Sum(b, 0, 0, b3) && Mul(0x0b, b) == Sum(b, b1, 0, b3)
            && Mul(0x0d, b) == Sum(b, 0, b2, b3) && Mul(0x0e, b) == Sum(0, b1, b2, b3)
            && Mul(0x09, Mul(2, b)) == Sum(b1, 0, 0, b4) && Mul(0x0b, Mul(2, b)) == Sum(b1, b2, 0, b4)
            && Mul(0x0d, Mul(2, b)) == Sum(b1, 0, b3, b4) && Mul(0x0e, Mul(2, b)) == Sum(0, b2, b3, b4)
            && Mul(0x09, Mul(3, b)) == Add(Sum(b, 0, 0, b3), Sum(b1, 0, 0, b4))
            && Mul(0x0b, Mul(3, b)) == Add(Sum(b, b1, 0, b3), Sum(b1, b2, 0, b4))
            && Mul(0x0d, Mul(3, b)) == Add(Sum(b, 0, b2, b3), Sum(b1, 0, b3, b4))
            && Mul(0x0e, Mul(3, b)) == Add(Sum(0, b1, b2, b3), Sum(0, b2, b3, b4))
  {
    hide Add, Sum, Mul, XTime, FFmul02;
    var b1 := XTime(b);
    Products(b);
    Products(b1);
    FFmulForward(b);
    FFmul02IsXTime(b);
    MulAdd(0x09, b, b1);
    MulAdd(0x0b, b, b1);
    MulAdd(0x0d, b, b1);
    MulAdd(0x0e, b, b1);
  }

  /** One byte of the inverse column mix applied to a column mix: `a` is the byte in that place and
      `b`, `c` and `d` follow it cyclically. */
  lemma InvMixOfMixByte(a: bv8, b: bv8, c: bv8, d: bv8)
    ensures Sum(Mul(0x0e, Sum(Mul(2, a), Mul(3, b), c, d)), Mul(0x0b, Sum(a, Mul(2, b), Mul(3, c), d)),
                Mul(0x0d, Sum(a, b, Mul(2, c), Mul(3, d))), Mul(0x09, Sum(Mul(3, a), b, c, Mul(2, d)))) == a
  {
    hide Mul, Sum, Add;
    MulSum(0x0e, Mul(2, a), Mul(3, b), c, d);
    MulSum(0x0b, a, Mul(2, b), Mul(3, c), d);
    MulSum(0x0d, a, b, Mul(2, c), Mul(3, d));
    MulSum(0x09, Mul(3, a), b, c, Mul(2, d));
    SumTranspose(Mul(0x0e, Mul(2, a)), Mul(0x0e, Mul(3, b)), Mul(0x0e, c), Mul(0x0e, d),
                 Mul(0x0b, a), Mul(0x0b, Mul(2, b)), Mul(0x0b, Mul(3, c)), Mul(0x0b, d),
                 Mul(0x0d, a), Mul(0x0d, b), Mul(0x0d, Mul(2, c)), Mul(0x0d, Mul(3, d)),
                 Mul(0x09, Mul(3, a)), Mul(0x09, b), Mul(0x09, c), Mul(0x09, Mul(2, d)));
    MixDiagonal(a);
    MixOffDiagonal1(b);
    MixOffDiagonal2(c);
    MixOffDiagonal3(d);
    SumOfOne(a);
  }

  lemma SumOfOne(a: bv8)
    ensures Sum(a, 0, 0, 0) == Sum(0, a, 0, 0) == Sum(0, 0, a, 0) == Sum(0, 0, 0, a) == a
  {
  }

  lemma SumRotate(a: bv8, b: bv8, c: bv8, d: bv8)
    ensures Sum(a, b, c, d) == Sum(b, c, d, a)
  {
    hide Add;
    AddComm(a, b);
    AddSwap(b, a, c, d);
    AddComm(a, d);
  }

  /** Both column mixes commute with a rotation of the column. */
  lemma MixRotated(c: Column)
    ensures MixColumn(Rotated(c)) == Rotated(MixColumn(c))
    ensures InvMixColumn(Rotated(c)) == Rotated(InvMixColumn(c))
  {
    hide Sum, Mul;
    SumRotate(Mul(2, c.b0), Mul(3, c.b1), c.b2, c.b3);
    SumRotate(c.b0, Mul(2, c.b1), Mul(3, c.b2), c.b3);
    SumRotate(c.b0, c.b1, Mul(2, c.b2), Mul(3, c.b3));
    SumRotate(Mul(3, c.b0), c.b1, c.b2, Mul(2, c.b3));
    SumRotate(Mul(0x0e, c.b0), Mul(0x0b, c.b1), Mul(0x0d, c.b2), Mul(0x09, c.b3));
    SumRotate(Mul(0x09, c.b0), Mul(0x0e, c.b1), Mul(0x0b, c.b2), Mul(0x0d, c.b3));
    SumRotate(Mul(0x0d, c.b0), Mul(0x09, c.b1), Mul(0x0e, c.b2), Mul(0x0b, c.b3));
    SumRotate(Mul(0x0b, c.b0), Mul(0x0d, c.b1), Mul(0x09, c.b2), Mul(0x0e, c.b3));
  }

  lemma InvMixOfMixFirst(c: Column)
    ensures InvMixColumn(MixColumn(c)).b0 == c.b0
  {
    hide Sum, Mul;
    InvMixOfMixByte(c.b0, c.b1, c.b2, c.b3);
  }

  /** The inverse column mix undoes the column mix. */
  lemma InvMixOfMix(c: Column)
    ensures InvMixColumn(MixColumn(c)) == c
  {
    hide MixColumn, InvMixColumn;
    var c1 := Rotated(c);
    var c2 := Rotated(c1);
    var c3 := Rotated(c2);
    MixRotated(c);
    MixRotated(c1);
    MixRotated(c2);
    MixRotated(MixColumn(c));
    MixRotated(MixColumn(c1));
    MixRotated(MixColumn(c2));
    InvMixOfMixFirst(c);
    InvMixOfMixFirst(c1);
    InvMixOfMixFirst(c2);
    InvMixOfMixFirst(c3);
  }

  /** The same the other way round. */
  lemma MixOfInvMixByte(a: bv8, b: bv8, c: bv8, d: bv8)
    ensures Sum(Mul(2, Sum(Mul(0x0e, a), Mul(0x0b, b), Mul(0x0d, c), Mul(0x09, d))),
                Mul(3, Sum(Mul(0x09, a), Mul(0x0e, b), Mul(0x0b, c), Mul(0x0d, d))),
                Sum(Mul(0x0d, a), Mul(0x09, b), Mul(0x0e, c), Mul(0x0b, d)),
                Sum(Mul(0x0b, a), Mul(0x0d, b), Mul(0x09, c), Mul(0x0e, d))) == a
  {
    hide Mul, Sum, Add;
    MulSum(2, Mul(0x0e, a), Mul(0x0b, b), Mul(0x0d, c), Mul(0x09, d));
    MulSum(3, Mul(0x09, a), Mul(0x0e, b), Mul(0x0b, c), Mul(0x0d, d));
    MulCommutes(0x0e, a);
    MulCommutes(0x0b, b);
    MulCommutes(0x0d, c);
    MulCommutes(0x09, d);
    MulCommutes(0x09, a);
    MulCommutes(0x0e, b);
    MulCommutes(0x0b, c);
    MulCommutes(0x0d, d);
    SumTranspose(Mul(0x0e, Mul(2, a)), Mul(0x0b, Mul(2, b)), Mul(0x0d, Mul(2, c)), Mul(0x09, Mul(2, d)),
                 Mul(0x09, Mul(3, a)), Mul(0x0e, Mul(3, b)), Mul(0x0b, Mul(3, c)), Mul(0x0d, Mul(3, d)),
                 Mul(0x0d, a), Mul(0x09, b), Mul(0x0e, c), Mul(0x0b, d),
                 Mul(0x0b, a), Mul(0x0d, b), Mul(0x09, c), Mul(0x0e, d));
    MixDiagonal(a);
    SumOrders(Mul(0x0e, Mul(2, a)), Mul(0x09, Mul(3, a)), Mul(0x0d, a), Mul(0x0b, a));
    MixOffDiagonal1(b);
    SumOrders(Mul(0x0b, Mul(2, b)), Mul(0x0e, Mul(3, b)), Mul(0x09, b), Mul(0x0d, b));
    MixOffDiagonal2(c);
    SumOrders(Mul(0x0d, Mul(2, c)), Mul(0x0b, Mul(3, c)), Mul(0x0e, c), Mul(0x09, c));
    MixOffDiagonal3(d);
    SumOrders(Mul(0x09, Mul(2, d)), Mul(0x0d, Mul(3, d)), Mul(0x0b, d), Mul(0x0e, d));
    SumOfOne(a);
  }

  lemma MixOfInvMixFirst(c: Column)
    ensures MixColumn(InvMixColumn(c)).b0 == c.b0
  {
    hide Sum, Mul;
    MixOfInvMixByte(c.b0, c.b1, c.b2, c.b3);
  }

  /** The column mix undoes the inverse one. */
  lemma MixOfInvMix(c: Column)
    ensures MixColumn(InvMixColumn(c)) == c
  {
    hide MixColumn, InvMixColumn;
    var c1 := Rotated(c);
    var c2 := Rotated(c1);
    var c3 := Rotated(c2);
    MixRotated(c);
    MixRotated(c1);
    MixRotated(c2);
    MixRotated(InvMixColumn(c));
    MixRotated(InvMixColumn(c1));
    MixRotated(InvMixColumn(c2));
    MixOfInvMixFirst(c);
    MixOfInvMixFirst(c1);
    MixOfInvMixFirst(c2);
    MixOfInvMixFirst(c3);
  }

  /** The inverse column mix distributes over the addition of a round key. */
  lemma InvMixAddsByte(p: bv8, q: bv8, r: bv8, t: bv8, x: Column, y: Column)
    ensures var z := AddColumn(x, y);
            Sum(Mul(p, z.b0), Mul(q, z.b1), Mul(r, z.b2), Mul(t, z.b3)) ==
            Add(Sum(Mul(p, x.b0), Mul(q, x.b1), Mul(r, x.b2), Mul(t, x.b3)),
                Sum(Mul(p, y.b0), Mul(q, y.b1), Mul(r, y.b2), Mul(t, y.b3)))
  {
    hide Add, Sum, Mul;
    MulAdd(p, x.b0, y.b0);
    MulAdd(q, x.b1, y.b1);
    MulAdd(r, x.b2, y.b2);
    MulAdd(t, x.b3, y.b3);
    SumSwap(Mul(p, x.b0), Mul(q, x.b1), Mul(r, x.b2), Mul(t, x.b3),
            Mul(p, y.b0), Mul(q, y.b1), Mul(r, y.b2), Mul(t, y.b3));
  }

  lemma InvMixAdds(x: Column, y: Column)
    ensures InvMixColumn(AddColumn(x, y)) == AddColumn(InvMixColumn(x), InvMixColumn(y))
  {
    hide Add, Sum, Mul;
    InvMixAddsByte(0x0e, 0x0b, 0x0d, 0x09, x, y);
    InvMixAddsByte(0x09, 0x0e, 0x0b, 0x0d, x, y);
    InvMixAddsByte(0x0d, 0x09, 0x0e, 0x0b, x, y);
    InvMixAddsByte(0x0b, 0x0d, 0x09, 0x0e, x, y);
  }

  lemma AddColumnTwice(x: Column, k: Column)
    ensures AddColumn(AddColumn(x, k), k) == x
  {
    hide Add;
    AddUnits(x.b0, k.b0);
    AddUnits(x.b1, k.b1);
    AddUnits(x.b2, k.b2);
    AddUnits(x.b3, k.b3);
  }

  lemma InvSubOfSub(c: Column)
    ensures InvSubColumn(SubColumn(c)) == c
  {
    hide SBox, InvSBox;
    SBoxInverse(c.b0);
    SBoxInverse(c.b1);
    SBoxInverse(c.b2);
    SBoxInverse(c.b3);
  }

  // The same on states.

  lemma RoundKeyTwice(s: State, k: State)
    ensures AddRoundKey(AddRoundKey(s, k), k) == s
  {
    hide AddColumn;
    AddColumnTwice(s.c0, k.c0);
    AddColumnTwice(s.c1, k.c1);
    AddColumnTwice(s.c2, k.c2);
    AddColumnTwice(s.c3, k.c3);
  }

  lemma InvSubBytesOfSub(s: State)
    ensures InvSubBytes(SubBytes(s)) == s
  {
    hide SubColumn, InvSubColumn;
    InvSubOfSub(s.c0);
    InvSubOfSub(s.c1);
    InvSubOfSub(s.c2);
    InvSubOfSub(s.c3);
  }

  lemma InvShiftOfShift(s: State)
    ensures InvShiftRows(ShiftRows(s)) == s
  {
  }

  lemma InvMixColumnsOfMix(s: State)
    ensures InvMixColumns(MixColumns(s)) == s
  {
    hide MixColumn, InvMixColumn;
    InvMixOfMix(s.c0);
    InvMixOfMix(s.c1);
    InvMixOfMix(s.c2);
    InvMixOfMix(s.c3);
  }

  lemma InvMixColumnsAdds(s: State, k: State)
    ensures InvMixColumns(AddRoundKey(s, k)) == AddRoundKey(InvMixColumns(s), InvMixColumns(k))
  {
    hide AddColumn, InvMixColumn;
    InvMixAdds(s.c0, k.c0);
    InvMixAdds(s.c1, k.c1);
    InvMixAdds(s.c2, k.c2);
    InvMixAdds(s.c3, k.c3);
  }

  lemma InvShiftCommutes(s: State)
    ensures InvShiftRows(InvSubBytes(s)) == InvSubBytes(InvShiftRows(s))
  {
    hide InvSBox;
  }

  // The two main results about the cipher, for every number of rounds and every schedule.

  lemma {:induction false} InvRoundsOfRounds(s: State, w: seq<State>, n: nat)
    requires n < |w|
    ensures InvRounds(ShiftRows(SubBytes(Rounds(s, w, n))), w, n) == ShiftRows(SubBytes(s))
    decreases n
  {
    hide AddRoundKey, SubBytes, InvSubBytes, ShiftRows, InvShiftRows, MixColumns, InvMixColumns;
    if n > 0 {
      var before := ShiftRows(SubBytes(Rounds(s, w, n - 1)));
      var after := Rounds(s, w, n);
      InvShiftOfShift(SubBytes(after));
      InvSubBytesOfSub(after);
      RoundKeyTwice(MixColumns(before), w[n]);
      InvMixColumnsOfMix(before);
      InvRoundsOfRounds(s, w, n - 1);
    }
  }

  /** The inverse cipher undoes the cipher. */
  lemma InvCipherOfCipher(s: State, w: seq<State>)
    requires |w| >= 2
    ensures InvCipher(Cipher(s, w), w) == s
  {
    hide AddRoundKey, SubBytes, InvSubBytes, ShiftRows, InvShiftRows, Rounds, InvRounds;
    var nr := |w| - 1;
    var start := AddRoundKey(s, w[0]);
    RoundKeyTwice(ShiftRows(SubBytes(Rounds(start, w, nr - 1))), w[nr]);
    InvRoundsOfRounds(start, w, nr - 1);
    InvShiftOfShift(SubBytes(start));
    InvSubBytesOfSub(start);
    RoundKeyTwice(s, w[0]);
  }

  lemma {:induction false} EqInvRoundsAreInvRounds(s: State, dw: seq<State>, w: seq<State>, n: nat)
    requires IsInverseSchedule(dw, w) && n <= |w| - 2
    ensures InvRounds(EqInvRounds(s, dw, n), w, |w| - 2 - n) == InvRounds(s, w, |w| - 2)
    decreases n
  {
    hide AddRoundKey, InvSubBytes, InvShiftRows, InvMixColumns;
    if n > 0 {
      EqInvRoundsAreInvRounds(s, dw, w, n - 1);
      var before := EqInvRounds(s, dw, n - 1);
      var key := w[|w| - 1 - n];
      InvShiftCommutes(before);
      InvMixColumnsAdds(InvShiftRows(InvSubBytes(before)), key);
      assert dw[n] == InvMixColumns(key);
    }
  }

  /** The equivalent inverse cipher, run on the inverse schedule, is the inverse cipher. */
  lemma EqInvCipherIsInvCipher(s: State, dw: seq<State>, w: seq<State>)
    requires IsInverseSchedule(dw, w)
    ensures EqInvCipher(s, dw) == InvCipher(s, w)
  {
    hide AddRoundKey, InvSubBytes, InvShiftRows, InvMixColumns;
    var start := AddRoundKey(s, dw[0]);
    EqInvRoundsAreInvRounds(start, dw, w, |w| - 2);
    InvShiftCommutes(EqInvRounds(start, dw, |w| - 2));
  }
}
