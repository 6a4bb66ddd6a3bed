/** The 32-bit words of the cipher: the macros of crypt/aes.h, the four-way tables and the round
    columns of crypt/aes.cpp, each tied to the column of FIPS-197 it stands for. */
module AesWords {
  import opened AesTab
  import opened Gf
  import opened Fips197

  function Bytes2Word(b0: bv8, b1: bv8, b2: bv8, b3: bv8): bv32 {
    (b3 as bv32 << 24) | (b2 as bv32 << 16) | (b1 as bv32 << 8) | (b0 as bv32)
  }

  // `bval`, one function for each byte position.
  function Bval0(x: bv32): bv8 { (x & 0xff) as bv8 }
  function Bval1(x: bv32): bv8 { ((x >> 8) & 0xff) as bv8 }
  function Bval2(x: bv32): bv8 { ((x >> 16) & 0xff) as bv8 }
  function Bval3(x: bv32): bv8 { ((x >> 24) & 0xff) as bv8 }

  /** `upr`: the bytes of a word moved up `n` places, those at the top wrapping around. */
  function Upr(x: bv32, n: nat): bv32 {
    match n
    case 0 => x
    case 1 => (x << 8) | (x >> 24)
    case 2 => (x << 16) | (x >> 16)
    case _ => (x << 24) | (x >> 8)
  }

  // The tables, by the formulas of the generator.
  function FtTab(n: nat, x: bv8): bv32 {
    var b := SBox(x); Upr(Bytes2Word(FFmul02(b), b, b, FFmul03(b)), n)
  }
  function FlTab(n: nat, x: bv8): bv32 { Upr(Bytes2Word(SBox(x), 0, 0, 0), n) }
  function ImTab(n: nat, b: bv8): bv32 {
    Upr(Bytes2Word(FFmul0e(b), FFmul09(b), FFmul0d(b), FFmul0b(b)), n)
  }
  function ItTab(n: nat, x: bv8): bv32 { ImTab(n, InvSBox(x)) }
  function IlTab(n: nat, x: bv8): bv32 { Upr(Bytes2Word(InvSBox(x), 0, 0, 0), n) }

  function Xor(x: bv32, y: bv32): bv32 { x ^ y }

  function FourWords(t0: bv32, t1: bv32, t2: bv32, t3: bv32): bv32 { Xor(Xor(Xor(t0, t1), t2), t3) }

  /** `ls_box(x, 3)` and `ls_box(x, 0)`: row `r` takes byte `(r - c) & 3`. */
  function LsBox3(x: bv32): bv32 {
    FourWords(FlTab(0, Bval1(x)), FlTab(1, Bval2(x)), FlTab(2, Bval3(x)), FlTab(3, Bval0(x)))
  }
  function LsBox0(x: bv32): bv32 {
    FourWords(FlTab(0, Bval0(x)), FlTab(1, Bval1(x)), FlTab(2, Bval2(x)), FlTab(3, Bval3(x)))
  }

  function InvMcol(x: bv32): bv32 {
    FourWords(ImTab(0, Bval0(x)), ImTab(1, Bval1(x)), ImTab(2, Bval2(x)), ImTab(3, Bval3(x)))
  }

  // One column of a round; the arguments are the words that `fwd_var` and `inv_var` select.
  function FwdRnd(k: bv32, x0: bv32, x1: bv32, x2: bv32, x3: bv32): bv32 {
    Xor(k, FourWords(FtTab(0, Bval0(x0)), FtTab(1, Bval1(x1)), FtTab(2, Bval2(x2)), FtTab(3, Bval3(x3))))
  }
  function FwdLrnd(k: bv32, x0: bv32, x1: bv32, x2: bv32, x3: bv32): bv32 {
    Xor(k, FourWords(FlTab(0, Bval0(x0)), FlTab(1, Bval1(x1)), FlTab(2, Bval2(x2)), FlTab(3, Bval3(x3))))
  }
  function InvRnd(k: bv32, x0: bv32, x1: bv32, x2: bv32, x3: bv32): bv32 {
    Xor(k, FourWords(ItTab(0, Bval0(x0)), ItTab(1, Bval1(x1)), ItTab(2, Bval2(x2)), ItTab(3, Bval3(x3))))
  }
  function InvLrnd(k: bv32, x0: bv32, x1: bv32, x2: bv32, x3: bv32): bv32 {
    Xor(k, FourWords(IlTab(0, Bval0(x0)), IlTab(1, Bval1(x1)), IlTab(2, Bval2(x2)), IlTab(3, Bval3(x3))))
  }

  /** The column that a word stands for: its lowest byte comes first. */
  function Col(x: bv32): Column { Column(Bval0(x), Bval1(x), Bval2(x), Bval3(x)) }

  lemma ColOfBytes(b0: bv8, b1: bv8, b2: bv8, b3: bv8)
    ensures Col(Bytes2Word(b0, b1, b2, b3)) == Column(b0, b1, b2, b3)
  {
  }

  lemma ColOfUpr1(x: bv32)
    ensures Col(Upr(x, 1)) == Column(Bval3(x), Bval0(x), Bval1(x), Bval2(x))
  {
  }

  lemma ColOfUpr2(x: bv32)
    ensures Col(Upr(x, 2)) == Column(Bval2(x), Bval3(x), Bval0(x), Bval1(x))
  {
  }

  lemma ColOfUpr3(x: bv32)
    ensures Col(Upr(x, 3)) == Column(Bval1(x), Bval2(x), Bval3(x), Bval0(x))
  {
  }

  lemma ColOfTable(b0: bv8, b1: bv8, b2: bv8, b3: bv8)
    ensures var w := Bytes2Word(b0, b1, b2, b3);
            && Col(Upr(w, 0)) == Column(b0, b1, b2, b3) && Col(Upr(w, 1)) == Column(b3, b0, b1, b2)
            && Col(Upr(w, 2)) == Column(b2, b3, b0, b1) && Col(Upr(w, 3)) == Column(b1, b2, b3, b0)
  {
    hide Bytes2Word, Bval0, Bval1, Bval2, Bval3;
    ColOfBytes(b0, b1, b2, b3);
    ColOfUpr1(Bytes2Word(b0, b1, b2, b3));
    ColOfUpr2(Bytes2Word(b0, b1, b2, b3));
    ColOfUpr3(Bytes2Word(b0, b1, b2, b3));
  }

  lemma ColOfXor(x: bv32, y: bv32)
    ensures Col(Xor(x, y)) == AddColumn(Col(x), Col(y)) == AddColumn(Col(y), Col(x))
  {
  }

  lemma ColOfFour(t0: bv32, t1: bv32, t2: bv32, t3: bv32)
    ensures var (c0, c1, c2, c3) := (Col(t0), Col(t1), Col(t2), Col(t3));
            Col(FourWords(t0, t1, t2, t3)) ==
            Column(Sum(c0.b0, c1.b0, c2.b0, c3.b0), Sum(c0.b1, c1.b1, c2.b1, c3.b1),
                   Sum(c0.b2, c1.b2, c2.b2, c3.b2), Sum(c0.b3, c1.b3, c2.b3, c3.b3))
  {
    hide Xor, Add, Col;
    var (c0, c1, c2, c3) := (Col(t0), Col(t1), Col(t2), Col(t3));
    ColOfXor(t0, t1);
    ColOfXor(Xor(t0, t1), t2);
    ColOfXor(Xor(Xor(t0, t1), t2), t3);
    AddAssoc(Add(c0.b0, c1.b0), c2.b0, c3.b0);
    AddAssoc(Add(c0.b1, c1.b1), c2.b1, c3.b1);
    AddAssoc(Add(c0.b2, c1.b2), c2.b2, c3.b2);
    AddAssoc(Add(c0.b3, c1.b3), c2.b3, c3.b3);
  }

  /** `inv_mcol`, and the inverse rounds: together the four tables mix a column inversely. */
  lemma ColOfImTabs(b0: bv8, b1: bv8, b2: bv8, b3: bv8)
    ensures Col(FourWords(ImTab(0, b0), ImTab(1, b1), ImTab(2, b2), ImTab(3, b3))) ==
            InvMixColumn(Column(b0, b1, b2, b3))
  {
    hide Col, Bytes2Word, Upr, FourWords, Sum, Mul, FFmul09, FFmul0b, FFmul0d, FFmul0e;
    ColOfTable(FFmul0e(b0), FFmul09(b0), FFmul0d(b0), FFmul0b(b0));
    ColOfTable(FFmul0e(b1), FFmul09(b1), FFmul0d(b1), FFmul0b(b1));
    ColOfTable(FFmul0e(b2), FFmul09(b2), FFmul0d(b2), FFmul0b(b2));
    ColOfTable(FFmul0e(b3), FFmul09(b3), FFmul0d(b3), FFmul0b(b3));
    FFmulInverse(b0);
    FFmulInverse(b1);
    FFmulInverse(b2);
    FFmulInverse(b3);
    ColOfFour(ImTab(0, b0), ImTab(1, b1), ImTab(2, b2), ImTab(3, b3));
  }

  /** The forward rounds: together the four tables substitute four bytes and mix them. */
  lemma ColOfFtTabs(x0: bv8, x1: bv8, x2: bv8, x3: bv8)
    ensures Col(FourWords(FtTab(0, x0), FtTab(1, x1), FtTab(2, x2), FtTab(3, x3))) ==
            MixColumn(SubColumn(Column(x0, x1, x2, x3)))
  {
    hide Col, Bytes2Word, Upr, FourWords, Sum, Mul, FFmul02, FFmul03, SBox;
    var (b0, b1, b2, b3) := (SBox(x0), SBox(x1), SBox(x2), SBox(x3));
    ColOfTable(FFmul02(b0), b0, b0, FFmul03(b0));
    ColOfTable(FFmul02(b1), b1, b1, FFmul03(b1));
    ColOfTable(FFmul02(b2), b2, b2, FFmul03(b2));
    ColOfTable(FFmul02(b3), b3, b3, FFmul03(b3));
    FFmulForward(b0);
    FFmulForward(b1);
    FFmulForward(b2);
    FFmulForward(b3);
    ColOfFour(FtTab(0, x0), FtTab(1, x1), FtTab(2, x2), FtTab(3, x3));
  }

  /** The last rounds: each table places one byte. */
  lemma ColOfPlaced(b0: bv8, b1: bv8, b2: bv8, b3: bv8)
    ensures Col(FourWords(Upr(Bytes2Word(b0, 0, 0, 0), 0), Upr(Bytes2Word(b1, 0, 0, 0), 1),
                          Upr(Bytes2Word(b2, 0, 0, 0), 2), Upr(Bytes2Word(b3, 0, 0, 0), 3))) ==
            Column(b0, b1, b2, b3)
  {
    hide Col, Bytes2Word, Upr, FourWords, Sum;
    ColOfTable(b0, 0, 0, 0);
    ColOfTable(b1, 0, 0, 0);
    ColOfTable(b2, 0, 0, 0);
    ColOfTable(b3, 0, 0, 0);
    ColOfFour(Upr(Bytes2Word(b0, 0, 0, 0), 0), Upr(Bytes2Word(b1, 0, 0, 0), 1),
              Upr(Bytes2Word(b2, 0, 0, 0), 2), Upr(Bytes2Word(b3, 0, 0, 0), 3));
    SumOfOne(b0);
    SumOfOne(b1);
    SumOfOne(b2);
    SumOfOne(b3);
  }

  // The key schedule's words.

  lemma ColOfLsBox(x: bv32)
    ensures Col(LsBox3(x)) == SubColumn(Rotated(Col(x))) && Col(LsBox0(x)) == SubColumn(Col(x))
  {
    hide SBox, Bytes2Word, Upr, FourWords, Bval0, Bval1, Bval2, Bval3;
    ColOfPlaced(SBox(Bval1(x)), SBox(Bval2(x)), SBox(Bval3(x)), SBox(Bval0(x)));
    ColOfPlaced(SBox(Bval0(x)), SBox(Bval1(x)), SBox(Bval2(x)), SBox(Bval3(x)));
  }

  lemma ColOfInvMcol(x: bv32)
    ensures Col(InvMcol(x)) == InvMixColumn(Col(x))
  {
    hide ImTab, FourWords, InvMixColumn, Bval0, Bval1, Bval2, Bval3;
    ColOfImTabs(Bval0(x), Bval1(x), Bval2(x), Bval3(x));
  }

  // The rounds, one column at a time.

  lemma ColOfFwdRnd(k: bv32, x0: bv32, x1: bv32, x2: bv32, x3: bv32)
    ensures var c := SubColumn(Column(Bval0(x0), Bval1(x1), Bval2(x2), Bval3(x3)));
            && Col(FwdRnd(k, x0, x1, x2, x3)) == AddColumn(MixColumn(c), Col(k))
            && Col(FwdLrnd(k, x0, x1, x2, x3)) == AddColumn(c, Col(k))
  {
    hide Col, FtTab, FourWords, Xor, SBox, Bytes2Word, Upr, Bval0, Bval1, Bval2, Bval3, AddColumn, MixColumn;
    ColOfFtTabs(Bval0(x0), Bval1(x1), Bval2(x2), Bval3(x3));
    ColOfPlaced(SBox(Bval0(x0)), SBox(Bval1(x1)), SBox(Bval2(x2)), SBox(Bval3(x3)));
    ColOfXor(k, FourWords(FtTab(0, Bval0(x0)), FtTab(1, Bval1(x1)), FtTab(2, Bval2(x2)), FtTab(3, Bval3(x3))));
    ColOfXor(k, FourWords(FlTab(0, Bval0(x0)), FlTab(1, Bval1(x1)), FlTab(2, Bval2(x2)), FlTab(3, Bval3(x3))));
  }

  lemma ColOfInvRnd(k: bv32, x0: bv32, x1: bv32, x2: bv32, x3: bv32)
    ensures var c := InvSubColumn(Column(Bval0(x0), Bval1(x1), Bval2(x2), Bval3(x3)));
            && Col(InvRnd(k, x0, x1, x2, x3)) == AddColumn(InvMixColumn(c), Col(k))
            && Col(InvLrnd(k, x0, x1, x2, x3)) == AddColumn(c, Col(k))
  {
    hide Col, ImTab, FourWords, Xor, InvSBox, Bytes2Word, Upr, Bval0, Bval1, Bval2, Bval3, AddColumn, InvMixColumn;
    var (b0, b1, b2, b3) := (InvSBox(Bval0(x0)), InvSBox(Bval1(x1)), InvSBox(Bval2(x2)), InvSBox(Bval3(x3)));
    ColOfImTabs(b0, b1, b2, b3);
    ColOfPlaced(b0, b1, b2, b3);
    ColOfXor(k, FourWords(ItTab(0, Bval0(x0)), ItTab(1, Bval1(x1)), ItTab(2, Bval2(x2)), ItTab(3, Bval3(x3))));
    ColOfXor(k, FourWords(IlTab(0, Bval0(x0)), IlTab(1, Bval1(x1)), IlTab(2, Bval2(x2)), IlTab(3, Bval3(x3))));
  }
}
