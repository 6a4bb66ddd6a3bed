/** What the S-boxes of crypt/aes_tab.h are in terms of the field, one row of sixteen entries at a time. */
module SBoxes {
  import opened AesTab
  import opened Gf

  lemma Row0(x: bv8)
    requires x & 0xf0 == 0x00
    ensures ByBits(x, InvAffine(SBoxRow0(x))) == if x == 0 then 0 else 1
  {
    hide ByBits, InvAffine, SBoxRow0;
    if x == 0 {
      Row0First(x);
    } else if x & 0xf8 == 0 {
      Row0Low(x);
    } else {
      assert x & 0xf8 == 0x08;
      Row0High(x);
    }
  }

  lemma Row0First(x: bv8)
    requires x == 0
    ensures ByBits(x, InvAffine(SBoxRow0(x))) == 0
  {
  }

  lemma Row0Low(x: bv8)
    requires x & 0xf8 == 0x00 && x != 0
    ensures ByBits(x, InvAffine(SBoxRow0(x))) == 1
  {
  }

  lemma Row0High(x: bv8)
    requires x & 0xf8 == 0x08
    ensures ByBits(x, InvAffine(SBoxRow0(x))) == 1
  {
  }

  lemma Row1(x: bv8)
    requires x & 0xf0 == 0x10
    ensures ByBits(x, InvAffine(SBoxRow1(x))) == 1
  {
    hide ByBits, InvAffine, SBoxRow1;
    if x & 0xf8 == 0x10 {
      Row1Low(x);
    } else {
      assert x & 0xf8 == 0x18;
      Row1High(x);
    }
  }

  lemma Row1Low(x: bv8)
    requires x & 0xf8 == 0x10
    ensures ByBits(x, InvAffine(SBoxRow1(x))) == 1
  {
  }

  lemma Row1High(x: bv8)
    requires x & 0xf8 == 0x18
    ensures ByBits(x, InvAffine(SBoxRow1(x))) == 1
  {
  }

  lemma Row2(x: bv8)
    requires x & 0xf0 == 0x20
    ensures ByBits(x, InvAffine(SBoxRow2(x))) == 1
  {
  }

  lemma Row3(x: bv8)
    requires x & 0xf0 == 0x30
    ensures ByBits(x, InvAffine(SBoxRow3(x))) == 1
  {
  }

  lemma Row4(x: bv8)
    requires x & 0xf0 == 0x40
    ensures ByBits(x, InvAffine(SBoxRow4(x))) == 1
  {
  }

  lemma Row5(x: bv8)
    requires x & 0xf0 == 0x50
    ensures ByBits(x, InvAffine(SBoxRow5(x))) == 1
  {
  }

  lemma Row6(x: bv8)
    requires x & 0xf0 == 0x60
    ensures ByBits(x, InvAffine(SBoxRow6(x))) == 1
  {
  }

  lemma Row7(x: bv8)
    requires x & 0xf0 == 0x70
    ensures ByBits(x, InvAffine(SBoxRow7(x))) == 1
  {
  }

  lemma Row8(x: bv8)
    requires x & 0xf0 == 0x80
    ensures ByBits(x, InvAffine(SBoxRow8(x))) == 1
  {
  }

  lemma Row9(x: bv8)
    requires x & 0xf0 == 0x90
    ensures ByBits(x, InvAffine(SBoxRow9(x))) == 1
  {
  }

  lemma RowA(x: bv8)
    requires x & 0xf0 == 0xa0
    ensures ByBits(x, InvAffine(SBoxRowA(x))) == 1
  {
  }

  lemma RowB(x: bv8)
    requires x & 0xf0 == 0xb0
    ensures ByBits(x, InvAffine(SBoxRowB(x))) == 1
  {
  }

  lemma RowC(x: bv8)
    requires x & 0xf0 == 0xc0
    ensures ByBits(x, InvAffine(SBoxRowC(x))) == 1
  {
  }

  lemma RowD(x: bv8)
    requires x & 0xf0 == 0xd0
    ensures ByBits(x, InvAffine(SBoxRowD(x))) == 1
  {
  }

  lemma RowE(x: bv8)
    requires x & 0xf0 == 0xe0
    ensures ByBits(x, InvAffine(SBoxRowE(x))) == 1
  {
  }

  lemma RowF(x: bv8)
    requires x & 0xf0 == 0xf0
    ensures ByBits(x, InvAffine(SBoxRowF(x))) == 1
  {
  }

  lemma Back0(x: bv8)
    requires x & 0xf0 == 0x00
    ensures InvSBox(SBoxRow0(x)) == x
  {
  }

  lemma Back1(x: bv8)
    requires x & 0xf0 == 0x10
    ensures InvSBox(SBoxRow1(x)) == x
  {
  }

  lemma Back2(x: bv8)
    requires x & 0xf0 == 0x20
    ensures InvSBox(SBoxRow2(x)) == x
  {
  }

  lemma Back3(x: bv8)
    requires x & 0xf0 == 0x30
    ensures InvSBox(SBoxRow3(x)) == x
  {
  }

  lemma Back4(x: bv8)
    requires x & 0xf0 == 0x40
    ensures InvSBox(SBoxRow4(x)) == x
  {
  }

  lemma Back5(x: bv8)
    requires x & 0xf0 == 0x50
    ensures InvSBox(SBoxRow5(x)) == x
  {
  }

  lemma Back6(x: bv8)
    requires x & 0xf0 == 0x60
    ensures InvSBox(SBoxRow6(x)) == x
  {
  }

  lemma Back7(x: bv8)
    requires x & 0xf0 == 0x70
    ensures InvSBox(SBoxRow7(x)) == x
  {
  }

  lemma Back8(x: bv8)
    requires x & 0xf0 == 0x80
    ensures InvSBox(SBoxRow8(x)) == x
  {
  }

  lemma Back9(x: bv8)
    requires x & 0xf0 == 0x90
    ensures InvSBox(SBoxRow9(x)) == x
  {
  }

  lemma BackA(x: bv8)
    requires x & 0xf0 == 0xa0
    ensures InvSBox(SBoxRowA(x)) == x
  {
  }

  lemma BackB(x: bv8)
    requires x & 0xf0 == 0xb0
    ensures InvSBox(SBoxRowB(x)) == x
  {
  }

  lemma BackC(x: bv8)
    requires x & 0xf0 == 0xc0
    ensures InvSBox(SBoxRowC(x)) == x
  {
  }

  lemma BackD(x: bv8)
    requires x & 0xf0 == 0xd0
    ensures InvSBox(SBoxRowD(x)) == x
  {
  }

  lemma BackE(x: bv8)
    requires x & 0xf0 == 0xe0
    ensures InvSBox(SBoxRowE(x)) == x
  {
  }

  lemma BackF(x: bv8)
    requires x & 0xf0 == 0xf0
    ensures InvSBox(SBoxRowF(x)) == x
  {
  }

  lemma Forth0(x: bv8)
    requires x & 0xf0 == 0x00
    ensures SBox(InvSBoxRow0(x)) == x
  {
  }

  lemma Forth1(x: bv8)
    requires x & 0xf0 == 0x10
    ensures SBox(InvSBoxRow1(x)) == x
  {
  }

  lemma Forth2(x: bv8)
    requires x & 0xf0 == 0x20
    ensures SBox(InvSBoxRow2(x)) == x
  {
  }

  lemma Forth3(x: bv8)
    requires x & 0xf0 == 0x30
    ensures SBox(InvSBoxRow3(x)) == x
  {
  }

  lemma Forth4(x: bv8)
    requires x & 0xf0 == 0x40
    ensures SBox(InvSBoxRow4(x)) == x
  {
  }

  lemma Forth5(x: bv8)
    requires x & 0xf0 == 0x50
    ensures SBox(InvSBoxRow5(x)) == x
  {
  }

  lemma Forth6(x: bv8)
    requires x & 0xf0 == 0x60
    ensures SBox(InvSBoxRow6(x)) == x
  {
  }

  lemma Forth7(x: bv8)
    requires x & 0xf0 == 0x70
    ensures SBox(InvSBoxRow7(x)) == x
  {
  }

  lemma Forth8(x: bv8)
    requires x & 0xf0 == 0x80
    ensures SBox(InvSBoxRow8(x)) == x
  {
  }

  lemma Forth9(x: bv8)
    requires x & 0xf0 == 0x90
    ensures SBox(InvSBoxRow9(x)) == x
  {
  }

  lemma ForthA(x: bv8)
    requires x & 0xf0 == 0xa0
    ensures SBox(InvSBoxRowA(x)) == x
  {
  }

  lemma ForthB(x: bv8)
    requires x & 0xf0 == 0xb0
    ensures SBox(InvSBoxRowB(x)) == x
  {
  }

  lemma ForthC(x: bv8)
    requires x & 0xf0 == 0xc0
    ensures SBox(InvSBoxRowC(x)) == x
  {
  }

  lemma ForthD(x: bv8)
    requires x & 0xf0 == 0xd0
    ensures SBox(InvSBoxRowD(x)) == x
  {
  }

  lemma ForthE(x: bv8)
    requires x & 0xf0 == 0xe0
    ensures SBox(InvSBoxRowE(x)) == x
  {
  }

  lemma ForthF(x: bv8)
    requires x & 0xf0 == 0xf0
    ensures SBox(InvSBoxRowF(x)) == x
  {
  }

  lemma SBoxByBits(x: bv8)
    ensures ByBits(x, InvAffine(SBox(x))) == if x == 0 then 0 else 1
  {
    hide SBoxRow0, SBoxRow1, SBoxRow2, SBoxRow3, SBoxRow4, SBoxRow5, SBoxRow6, SBoxRow7;
    hide SBoxRow8, SBoxRow9, SBoxRowA, SBoxRowB, SBoxRowC, SBoxRowD, SBoxRowE, SBoxRowF, ByBits, InvAffine;
    match x & 0xf0
    case 0x00 => Row0(x);
    case 0x10 => Row1(x);
    case 0x20 => Row2(x);
    case 0x30 => Row3(x);
    case 0x40 => Row4(x);
    case 0x50 => Row5(x);
    case 0x60 => Row6(x);
    case 0x70 => Row7(x);
    case 0x80 => Row8(x);
    case 0x90 => Row9(x);
    case 0xa0 => RowA(x);
    case 0xb0 => RowB(x);
    case 0xc0 => RowC(x);
    case 0xd0 => RowD(x);
    case 0xe0 => RowE(x);
    case _ => RowF(x);
  }

  /** Every index times its entry, mapped back, is 1, or 0 for the index 0. */
  lemma SBoxInverts(x: bv8)
    ensures Mul(x, InvAffine(SBox(x))) == if x == 0 then 0 else 1
  {
    hide SBox, Mul, ByBits, InvAffine;
    SBoxByBits(x);
    MulIsByBits(x, InvAffine(SBox(x)));
  }

  /** Section 5.1.1 of FIPS-197: an S-box entry is the affine image of the inverse of its index, {00}
      counting as its own inverse. */
  lemma SBoxIsAffineOfInverse(x: bv8)
    ensures exists inverse :: SBox(x) == FwdAffine(inverse) && Mul(x, inverse) == if x == 0 then 0 else 1
  {
    hide *;
    AffineInverts(SBox(x));
    SBoxInverts(x);
  }

  lemma InvSBoxOfSBox(x: bv8)
    ensures InvSBox(SBox(x)) == x
  {
    hide SBoxRow0, SBoxRow1, SBoxRow2, SBoxRow3, SBoxRow4, SBoxRow5, SBoxRow6, SBoxRow7;
    hide SBoxRow8, SBoxRow9, SBoxRowA, SBoxRowB, SBoxRowC, SBoxRowD, SBoxRowE, SBoxRowF, InvSBox;
    match x & 0xf0
    case 0x00 => Back0(x);
    case 0x10 => Back1(x);
    case 0x20 => Back2(x);
    case 0x30 => Back3(x);
    case 0x40 => Back4(x);
    case 0x50 => Back5(x);
    case 0x60 => Back6(x);
    case 0x70 => Back7(x);
    case 0x80 => Back8(x);
    case 0x90 => Back9(x);
    case 0xa0 => BackA(x);
    case 0xb0 => BackB(x);
    case 0xc0 => BackC(x);
    case 0xd0 => BackD(x);
    case 0xe0 => BackE(x);
    case _ => BackF(x);
  }

  lemma SBoxOfInvSBox(x: bv8)
    ensures SBox(InvSBox(x)) == x
  {
    hide InvSBoxRow0, InvSBoxRow1, InvSBoxRow2, InvSBoxRow3, InvSBoxRow4, InvSBoxRow5, InvSBoxRow6, InvSBoxRow7;
    hide InvSBoxRow8, InvSBoxRow9, InvSBoxRowA, InvSBoxRowB, InvSBoxRowC, InvSBoxRowD, InvSBoxRowE, InvSBoxRowF, SBox;
    match x & 0xf0
    case 0x00 => Forth0(x);
    case 0x10 => Forth1(x);
    case 0x20 => Forth2(x);
    case 0x30 => Forth3(x);
    case 0x40 => Forth4(x);
    case 0x50 => Forth5(x);
    case 0x60 => Forth6(x);
    case 0x70 => Forth7(x);
    case 0x80 => Forth8(x);
    case 0x90 => Forth9(x);
    case 0xa0 => ForthA(x);
    case 0xb0 => ForthB(x);
    case 0xc0 => ForthC(x);
    case 0xd0 => ForthD(x);
    case 0xe0 => ForthE(x);
    case _ => ForthF(x);
  }

  /** The two byte tables undo each other. */
  lemma SBoxInverse(x: bv8)
    ensures InvSBox(SBox(x)) == x && SBox(InvSBox(x)) == x
  {
    hide SBox, InvSBox;
    InvSBoxOfSBox(x);
    SBoxOfInvSBox(x);
  }
}
