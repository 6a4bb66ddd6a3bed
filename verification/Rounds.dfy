/** What `my_encrypt` computes for the longer keys.  It does ten rounds whatever the key; this is the cipher
    of FIPS-197 under the whole schedule if and only if the schedule has ten rounds. */
module Rounds {
  import opened AesTab
  import opened Gf
  import opened SBoxes
  import opened Fips197
  import opened Aes

  function Round(s: State, k: State): State { AddRoundKey(MixColumns(ShiftRows(SubBytes(s))), k) }

  function Last(s: State, k: State): State { AddRoundKey(ShiftRows(SubBytes(s)), k) }

  // Every state is reached: a round can be undone in front as well.

  function Unround(s: State, k: State): State { InvSubBytes(InvShiftRows(InvMixColumns(AddRoundKey(s, k)))) }

  lemma SubOfInvSub(c: Column)
    ensures SubColumn(InvSubColumn(c)) == c
  {
    hide SBox, InvSBox;
    SBoxInverse(c.b0);
    SBoxInverse(c.b1);
    SBoxInverse(c.b2);
    SBoxInverse(c.b3);
  }

  lemma SubBytesOfInvSub(s: State)
    ensures SubBytes(InvSubBytes(s)) == s
  {
    hide SubColumn, InvSubColumn;
    SubOfInvSub(s.c0);
    SubOfInvSub(s.c1);
    SubOfInvSub(s.c2);
    SubOfInvSub(s.c3);
  }

  lemma ShiftOfInvShift(s: State)
    ensures ShiftRows(InvShiftRows(s)) == s
  {
  }

  lemma MixColumnsOfInvMix(s: State)
    ensures MixColumns(InvMixColumns(s)) == s
  {
    hide MixColumn, InvMixColumn;
    MixOfInvMix(s.c0);
    MixOfInvMix(s.c1);
    MixOfInvMix(s.c2);
    MixOfInvMix(s.c3);
  }

  lemma RoundOfUnround(s: State, k: State)
    ensures Round(Unround(s, k), k) == s
  {
    hide AddRoundKey, SubBytes, InvSubBytes, ShiftRows, InvShiftRows, MixColumns, InvMixColumns;
    var mixed := InvMixColumns(AddRoundKey(s, k));
    SubBytesOfInvSub(InvShiftRows(mixed));
    ShiftOfInvShift(mixed);
    MixColumnsOfInvMix(AddRoundKey(s, k));
    RoundKeyTwice(s, k);
  }

  function Unrounds(t: State, w: seq<State>, n: nat): State
    requires n < |w|
    decreases n
  {
    if n == 0 then t else Unrounds(Unround(t, w[n]), w, n - 1)
  }

  lemma {:induction false} RoundsOfUnrounds(t: State, w: seq<State>, n: nat)
    requires n < |w|
    ensures Rounds(Unrounds(t, w, n), w, n) == t
    decreases n
  {
    hide AddRoundKey, SubBytes, ShiftRows, MixColumns, Unround;
    if n > 0 {
      RoundsOfUnrounds(Unround(t, w[n]), w, n - 1);
      RoundOfUnround(t, w[n]);
    }
  }

  lemma {:induction false} RoundsOfPrefix(s: State, w: seq<State>, m: nat, n: nat)
    requires n < m <= |w|
    ensures Rounds(s, w[..m], n) == Rounds(s, w, n)
    decreases n
  {
    hide AddRoundKey, SubBytes, ShiftRows, MixColumns;
    if n > 0 {
      RoundsOfPrefix(s, w, m, n - 1);
    }
  }

  /** The plain state that is `t` after nine rounds. */
  function Start(t: State, w: seq<State>): State
    requires |w| >= 11
  {
    AddRoundKey(Unrounds(t, w, 9), w[0])
  }

  lemma TenFromNine(t: State, w: seq<State>)
    requires |w| >= 11
    ensures Cipher(Start(t, w), w[..11]) == Last(t, w[10]) && Rounds(AddRoundKey(Start(t, w), w[0]), w, 9) == t
  {
    hide AddRoundKey, SubBytes, ShiftRows, MixColumns, Unrounds, Rounds;
    RoundKeyTwice(Unrounds(t, w, 9), w[0]);
    RoundsOfUnrounds(t, w, 9);
    RoundsOfPrefix(Unrounds(t, w, 9), w, 11, 9);
  }

  lemma OneMoreRound(s: State, w: seq<State>, n: nat)
    requires n + 1 < |w|
    ensures Rounds(s, w, n + 1) == Round(Rounds(s, w, n), w[n + 1])
  {
    hide AddRoundKey, SubBytes, ShiftRows, MixColumns;
  }

  lemma TwelveFromNine(t: State, w: seq<State>)
    requires |w| == 13
    ensures Cipher(Start(t, w), w) == Last(Round(Round(t, w[10]), w[11]), w[12])
  {
    hide AddRoundKey, SubBytes, ShiftRows, MixColumns, Rounds, Start, Round;
    TenFromNine(t, w);
    var s := AddRoundKey(Start(t, w), w[0]);
    OneMoreRound(s, w, 9);
    OneMoreRound(s, w, 10);
  }

  lemma FourteenFromNine(t: State, w: seq<State>)
    requires |w| == 15
    ensures Cipher(Start(t, w), w) ==
            Last(Round(Round(Round(Round(t, w[10]), w[11]), w[12]), w[13]), w[14])
  {
    hide AddRoundKey, SubBytes, ShiftRows, MixColumns, Rounds, Start, Round;
    TenFromNine(t, w);
    var s := AddRoundKey(Start(t, w), w[0]);
    OneMoreRound(s, w, 9);
    OneMoreRound(s, w, 10);
    OneMoreRound(s, w, 11);
    OneMoreRound(s, w, 12);
  }

  // Differences.

  lemma KeyCancels(a: bv8, b: bv8, k: bv8)
    ensures Add(Add(a, k), Add(b, k)) == Add(a, b)
  {
    hide Add;
    AddSwap(a, k, b, k);
    AddUnits(k, k);
    AddUnits(Add(a, b), 0);
  }

  lemma KeyColumnCancels(a: Column, b: Column, k: Column)
    ensures AddColumn(AddColumn(a, k), AddColumn(b, k)) == AddColumn(a, b)
  {
    hide Add;
    KeyCancels(a.b0, b.b0, k.b0);
    KeyCancels(a.b1, b.b1, k.b1);
    KeyCancels(a.b2, b.b2, k.b2);
    KeyCancels(a.b3, b.b3, k.b3);
  }

  lemma RoundKeyCancels(a: State, b: State, k: State)
    ensures AddRoundKey(AddRoundKey(a, k), AddRoundKey(b, k)) == AddRoundKey(a, b)
  {
    hide AddColumn;
    KeyColumnCancels(a.c0, b.c0, k.c0);
    KeyColumnCancels(a.c1, b.c1, k.c1);
    KeyColumnCancels(a.c2, b.c2, k.c2);
    KeyColumnCancels(a.c3, b.c3, k.c3);
  }

  lemma ShiftRowsAdds(a: State, b: State)
    ensures ShiftRows(AddRoundKey(a, b)) == AddRoundKey(ShiftRows(a), ShiftRows(b))
  {
    hide Add;
  }

  /** If the last round gives the same for `t` and `u`, and for `t'` and `u'`, the S-boxes of both pairs
      differ in the same. */
  lemma SameDifference(t: State, t': State, u: State, u': State, k: State, k': State)
    requires Last(t, k) == Last(u, k') && Last(t', k) == Last(u', k')
    ensures AddRoundKey(SubBytes(t), SubBytes(t')) == AddRoundKey(SubBytes(u), SubBytes(u'))
  {
    hide AddRoundKey, SubBytes, ShiftRows;
    RoundKeyCancels(ShiftRows(SubBytes(t)), ShiftRows(SubBytes(t')), k);
    RoundKeyCancels(ShiftRows(SubBytes(u)), ShiftRows(SubBytes(u')), k');
    ShiftRowsAdds(SubBytes(t), SubBytes(t'));
    ShiftRowsAdds(SubBytes(u), SubBytes(u'));
    InvShiftOfShift(AddRoundKey(SubBytes(t), SubBytes(t')));
    InvShiftOfShift(AddRoundKey(SubBytes(u), SubBytes(u')));
  }

  lemma AddIsZero(a: bv8, b: bv8)
    requires Add(a, b) == 0
    ensures a == b
  {
  }

  lemma SameByte(a: bv8, b: bv8)
    requires Add(SBox(a), SBox(b)) == 0 || SBox(a) == SBox(b)
    ensures a == b
  {
    hide SBox, InvSBox, Add;
    if SBox(a) != SBox(b) {
      AddIsZero(SBox(a), SBox(b));
    }
    SBoxInverse(a);
    SBoxInverse(b);
  }

  const ZERO := Column(0, 0, 0, 0)

  lemma SameColumn(a: Column, b: Column)
    requires AddColumn(SubColumn(a), SubColumn(b)) == ZERO
    ensures a == b
  {
    hide SBox, Add;
    SameByte(a.b0, b.b0);
    SameByte(a.b1, b.b1);
    SameByte(a.b2, b.b2);
    SameByte(a.b3, b.b3);
  }

  // Two states that differ in one byte, chosen by what a round makes of them.

  /** The states after the S-boxes of round 11 that the argument needs: the first column and one byte
      of the third are free. */
  function Chosen(a: Column, v: bv8): State { State(SubColumn(a), ZERO, Column(0, 0, v, 0), ZERO) }

  /** Where such a state comes from, one round back. */
  function Origin(a: Column, v: bv8, k: State): State { Unround(InvSubBytes(Chosen(a, v)), k) }

  const NEAR := ZERO
  const FAR := Column(2, 1, 1, 3)

  lemma AfterTwo(a: Column, v: bv8, k: State, k': State)
    ensures Round(Round(Origin(a, v, k), k), k') == AddRoundKey(MixColumns(ShiftRows(Chosen(a, v))), k')
  {
    hide Chosen, AddRoundKey, SubBytes, InvSubBytes, ShiftRows, MixColumns, Unround;
    RoundOfUnround(InvSubBytes(Chosen(a, v)), k);
    assert Round(Origin(a, v, k), k) == InvSubBytes(Chosen(a, v));
    SubBytesOfInvSub(Chosen(a, v));
  }

  lemma MixOfOne()
    ensures MixColumn(Column(1, 0, 0, 0)) == FAR
  {
    assert XTime(1) == 2 && XTime(0) == 0;
    hide Mul, XTime;
    TwoAndThree(1);
    TwoAndThree(0);
    SmallSums();
  }

  lemma TwoAndThree(b: bv8)
    ensures Mul(2, b) == XTime(b) && Mul(3, b) == Add(b, XTime(b))
  {
    hide Add, Mul, XTime, FFmul02;
    FFmulForward(b);
    FFmul02IsXTime(b);
  }

  lemma SmallSums()
    ensures Add(1, 2) == 3 && Add(0, 0) == 0
    ensures Sum(2, 0, 0, 0) == 2 && Sum(1, 0, 0, 0) == 1 && Sum(3, 0, 0, 0) == 3
  {
  }

  lemma NearIsFarAndOne(c: Column)
    ensures AddColumn(AddColumn(NEAR, c), AddColumn(FAR, c)) == FAR
  {
    hide Add;
    KeyColumnCancels(NEAR, FAR, c);
    AddUnits(2, 0);
    AddUnits(1, 0);
    AddUnits(3, 0);
  }

  lemma InvMixDiffers(c: Column)
    ensures AddColumn(InvMixColumn(AddColumn(NEAR, c)), InvMixColumn(AddColumn(FAR, c))) == Column(1, 0, 0, 0)
  {
    hide AddColumn, MixColumn, InvMixColumn;
    InvMixAdds(AddColumn(NEAR, c), AddColumn(FAR, c));
    NearIsFarAndOne(c);
    MixOfOne();
    InvMixOfMix(Column(1, 0, 0, 0));
  }

  lemma SelfCancels(c: Column)
    ensures AddColumn(c, c) == ZERO
  {
    hide Add;
    AddUnits(c.b0, 0);
    AddUnits(c.b1, 0);
    AddUnits(c.b2, 0);
    AddUnits(c.b3, 0);
  }

  /** The states before the round differ, after the S-boxes, in one byte. */
  lemma OriginsDiffer(v: bv8, k: State)
    ensures AddRoundKey(SubBytes(Origin(NEAR, v, k)), SubBytes(Origin(FAR, v, k))) ==
            State(Column(1, 0, 0, 0), ZERO, ZERO, ZERO)
  {
    var (near, far) := (InvSubBytes(Chosen(NEAR, v)), InvSubBytes(Chosen(FAR, v)));
    var (m, m') := (InvMixColumns(AddRoundKey(near, k)), InvMixColumns(AddRoundKey(far, k)));
    assert SubBytes(Origin(NEAR, v, k)) == InvShiftRows(m) && SubBytes(Origin(FAR, v, k)) == InvShiftRows(m') by {
      hide SubBytes, InvSubBytes, InvShiftRows, InvMixColumns, AddRoundKey, Chosen;
      SubBytesOfInvSub(InvShiftRows(m));
      SubBytesOfInvSub(InvShiftRows(m'));
    }
    hide SubBytes, SubColumn, InvSubColumn, InvMixColumn, AddColumn, Unround;
    InvSubOfSub(NEAR);
    InvSubOfSub(FAR);
    assert near.c0 == NEAR && far.c0 == FAR && near.c1 == far.c1 && near.c2 == far.c2 && near.c3 == far.c3;
    InvMixDiffers(k.c0);
    assert m.c1 == m'.c1 && m.c2 == m'.c2 && m.c3 == m'.c3;
    SelfCancels(m.c1);
    ShiftsOneByte(m, m');
  }

  lemma ShiftsOneByte(m: State, m': State)
    requires AddColumn(m.c0, m'.c0) == Column(1, 0, 0, 0) && m.c1 == m'.c1 && m.c2 == m'.c2 && m.c3 == m'.c3
    ensures AddRoundKey(InvShiftRows(m), InvShiftRows(m')) == State(Column(1, 0, 0, 0), ZERO, ZERO, ZERO)
  {
    hide Add;
    SelfCancels(m.c1);
    SelfCancels(m.c2);
    SelfCancels(m.c3);
  }

  /** If ten rounds agree with more on such a pair, the results differ as little, before the last round. */
  lemma EndsDiffer(v: bv8, k: State, u: State, u': State, k': State)
    requires Last(Origin(NEAR, v, k), k) == Last(u, k') && Last(Origin(FAR, v, k), k) == Last(u', k')
    ensures u.c0.b1 == u'.c0.b1 && u.c0.b2 == u'.c0.b2 && u.c0.b3 == u'.c0.b3
    ensures u.c1 == u'.c1 && u.c2 == u'.c2 && u.c3 == u'.c3
  {
    SameDifference(Origin(NEAR, v, k), Origin(FAR, v, k), u, u', k, k');
    OriginsDiffer(v, k);
    assert AddRoundKey(SubBytes(u), SubBytes(u')) == State(Column(1, 0, 0, 0), ZERO, ZERO, ZERO);
    hide SBox, Add, Last, Origin;
    SameByte(u.c0.b1, u'.c0.b1);
    SameByte(u.c0.b2, u'.c0.b2);
    SameByte(u.c0.b3, u'.c0.b3);
    SameColumn(u.c1, u'.c1);
    SameColumn(u.c2, u'.c2);
    SameColumn(u.c3, u'.c3);
  }

  // Twelve rounds: the changed byte has spread to four columns.

  lemma EntriesOfChosen()
    ensures SubColumn(NEAR) == Column(0x63, 0x63, 0x63, 0x63) && SubColumn(FAR) == Column(0x77, 0x7c, 0x7c, 0x7b)
  {
  }

  /** Row 1 of column 1 after the next round. */
  lemma SpreadsToOne(a: Column, v: bv8, k: State)
    ensures AddRoundKey(MixColumns(ShiftRows(Chosen(a, v))), k).c1.b1 == Add(SubColumn(a).b3, k.c1.b1)
  {
    hide SubColumn, Add, Mul, XTime;
    TwoAndThree(0);
    assert XTime(0) == 0 by { XTimeOfZero(); }
    AddUnits(0, 0);
    AddUnits(SubColumn(a).b3, 0);
  }

  lemma TwelveClash(k: State, k11: State, k12: State)
    ensures exists t :: Last(t, k) != Last(Round(Round(t, k), k11), k12)
  {
    hide Last, Origin, Round;
    var (t, t') := (Origin(NEAR, 0, k), Origin(FAR, 0, k));
    var (u, u') := (Round(Round(t, k), k11), Round(Round(t', k), k11));
    if Last(t, k) == Last(u, k12) && Last(t', k) == Last(u', k12) {
      EndsDiffer(0, k, u, u', k12);
      AfterTwo(NEAR, 0, k, k11);
      AfterTwo(FAR, 0, k, k11);
      SpreadsToOne(NEAR, 0, k11);
      SpreadsToOne(FAR, 0, k11);
      EntriesOfChosen();
      SameSum(0x63, 0x7b, k11.c1.b1);
      assert false;
    }
  }

  lemma SameSum(a: bv8, b: bv8, k: bv8)
    ensures Add(a, k) == Add(b, k) ==> a == b
  {
  }

  // Fourteen rounds: what two rounds before the last one allow for the S-boxes of round 12.

  lemma RoundColumns(g: State, g': State, k: State)
    requires Round(g, k).c1 == Round(g', k).c1 && Round(g, k).c2 == Round(g', k).c2 && Round(g, k).c3 == Round(g', k).c3
    ensures g.c0.b1 == g'.c0.b1 && g.c0.b2 == g'.c0.b2 && g.c0.b3 == g'.c0.b3
  {
    var (q, q') := (ShiftRows(SubBytes(g)), ShiftRows(SubBytes(g')));
    hide SBox, AddColumn, MixColumn;
    MixedColumn(q.c1, q'.c1, k.c1);
    MixedColumn(q.c2, q'.c2, k.c2);
    MixedColumn(q.c3, q'.c3, k.c3);
    SameByte(g.c0.b1, g'.c0.b1);
    SameByte(g.c0.b2, g'.c0.b2);
    SameByte(g.c0.b3, g'.c0.b3);
  }

  lemma MixedColumn(a: Column, b: Column, k: Column)
    requires AddColumn(MixColumn(a), k) == AddColumn(MixColumn(b), k)
    ensures a == b
  {
    hide AddColumn, MixColumn, InvMixColumn;
    AddColumnTwice(MixColumn(a), k);
    AddColumnTwice(MixColumn(b), k);
    InvMixOfMix(a);
    InvMixOfMix(b);
  }

  lemma MulZero(b: bv8)
    ensures Mul(0x09, 0) == 0 && Mul(0x0b, 0) == 0 && Mul(0x0d, 0) == 0 && Mul(0x0e, 0) == 0
    ensures Sum(b, 0, 0, 0) == b
  {
    hide Add, Mul, XTime;
    Products(0);
    XTimeOfZero();
    AddUnits(0, 0);
    AddUnits(b, 0);
  }

  lemma InvMixOfOne(e: bv8)
    ensures InvMixColumn(Column(e, 0, 0, 0)) == Column(Mul(0x0e, e), Mul(0x09, e), Mul(0x0d, e), Mul(0x0b, e))
  {
    hide Sum, Mul;
    MulZero(Mul(0x0e, e));
    MulZero(Mul(0x09, e));
    MulZero(Mul(0x0d, e));
    MulZero(Mul(0x0b, e));
  }

  /** The column before a mix, when after it only the first byte differs. */
  lemma BeforeMix(a: Column, b: Column, k: Column, e: bv8)
    requires AddColumn(AddColumn(MixColumn(a), k), AddColumn(MixColumn(b), k)) == Column(e, 0, 0, 0)
    ensures Add(a.b0, b.b0) == Mul(0x0e, e) && Add(a.b1, b.b1) == Mul(0x09, e)
  {
    assert AddColumn(a, b) == InvMixColumn(Column(e, 0, 0, 0)) by {
      hide AddColumn, MixColumn, InvMixColumn;
      KeyColumnCancels(MixColumn(a), MixColumn(b), k);
      InvMixAdds(MixColumn(a), MixColumn(b));
      InvMixOfMix(a);
      InvMixOfMix(b);
    }
    hide Add, Mul, InvMixColumn, MixColumn;
    InvMixOfOne(e);
  }

  lemma FirstColumn(x: State, k: State, z: Column)
    requires z == ShiftRows(SubBytes(x)).c0
    ensures Round(x, k).c0 == AddColumn(MixColumn(z), k.c0) && z.b0 == SBox(x.c0.b0) && z.b1 == SBox(x.c1.b1)
  {
    hide SBox, MixColumn, AddColumn;
  }

  lemma FirstByteDiffers(a: Column, b: Column)
    requires a.b1 == b.b1 && a.b2 == b.b2 && a.b3 == b.b3
    ensures AddColumn(a, b) == Column(Add(a.b0, b.b0), 0, 0, 0)
  {
    hide Add;
    AddUnits(a.b1, 0);
    AddUnits(a.b2, 0);
    AddUnits(a.b3, 0);
  }

  /** The S-boxes of round 12 differ in multiples of one `e`, in the two bytes that are looked at. */
  lemma OneError(x: State, x': State, k12: State, k13: State) returns (e: bv8)
    requires var (u, u') := (Round(Round(x, k12), k13), Round(Round(x', k12), k13));
             u.c1 == u'.c1 && u.c2 == u'.c2 && u.c3 == u'.c3
    ensures Add(SBox(x.c0.b0), SBox(x'.c0.b0)) == Mul(0x0e, e)
    ensures Add(SBox(x.c1.b1), SBox(x'.c1.b1)) == Mul(0x09, e)
  {
    hide Round, SBox, Add, Mul, AddColumn, MixColumn, ShiftRows, SubBytes;
    var (g, g') := (Round(x, k12), Round(x', k12));
    RoundColumns(g, g', k13);
    FirstByteDiffers(g.c0, g'.c0);
    e := Add(g.c0.b0, g'.c0.b0);
    var (z, z') := (ShiftRows(SubBytes(x)).c0, ShiftRows(SubBytes(x')).c0);
    FirstColumn(x, k12, z);
    FirstColumn(x', k12, z');
    BeforeMix(z, z', k12.c0, e);
  }

  /** Row 0 of column 0 after round 11. */
  lemma SpreadsToZero(a: Column, v: bv8, k: State)
    ensures AddRoundKey(MixColumns(ShiftRows(Chosen(a, v))), k).c0.b0 ==
            Add(Sum(Mul(2, SubColumn(a).b0), 0, v, 0), k.c0.b0)
  {
    hide SubColumn, Add, Sum, Mul, XTime;
    TwoAndThree(0);
    XTimeOfZero();
    AddUnits(0, 0);
  }

  /** The free byte that makes this byte `p` for the near state. */
  function Tuned(p: bv8, k: bv8): bv8 { Add(Add(p, 0xc6), k) }

  lemma TunedIs(p: bv8, k: bv8)
    ensures Add(Sum(0xc6, 0, Tuned(p, k), 0), k) == p && Add(Sum(0xee, 0, Tuned(p, k), 0), k) == Add(p, 0x28)
  {
  }

  lemma FirstBytes(p: bv8, k11: State)
    ensures AddRoundKey(MixColumns(ShiftRows(Chosen(NEAR, Tuned(p, k11.c0.b0)))), k11).c0.b0 == p
    ensures AddRoundKey(MixColumns(ShiftRows(Chosen(FAR, Tuned(p, k11.c0.b0)))), k11).c0.b0 == Add(p, 0x28)
  {
    var v := Tuned(p, k11.c0.b0);
    assert Mul(2, 0x63) == 0xc6 && Mul(2, 0x77) == 0xee by {
      TwoAndThree(0x63);
      TwoAndThree(0x77);
    }
    hide AddRoundKey, MixColumns, ShiftRows, Chosen, SubColumn, Add, Sum, Mul, Tuned;
    EntriesOfChosen();
    SpreadsToZero(NEAR, v, k11);
    SpreadsToZero(FAR, v, k11);
    TunedIs(p, k11.c0.b0);
  }

  /** What agreement on one pair says of the S-box: a sum of entries, and another that does not depend
      on `p`, are the same multiples of one byte. */
  lemma PairForces(p: bv8, k: State, k11: State, k12: State, k13: State, k14: State) returns (e: bv8)
    requires var v := Tuned(p, k11.c0.b0);
             && Agree14(Origin(NEAR, v, k), k, k11, k12, k13, k14)
             && Agree14(Origin(FAR, v, k), k, k11, k12, k13, k14)
    ensures Add(SBox(p), SBox(Add(p, 0x28))) == Mul(0x0e, e)
    ensures Add(SBox(Add(0x63, k11.c1.b1)), SBox(Add(0x7b, k11.c1.b1))) == Mul(0x09, e)
  {
    hide Last, Origin, Round, SBox, Add, Mul, Tuned, Chosen, AddRoundKey, MixColumns, ShiftRows;
    var v := Tuned(p, k11.c0.b0);
    var (t, t') := (Origin(NEAR, v, k), Origin(FAR, v, k));
    var (x, x') := (Round(Round(t, k), k11), Round(Round(t', k), k11));
    EndsDiffer(v, k, Round(Round(x, k12), k13), Round(Round(x', k12), k13), k14);
    e := OneError(x, x', k12, k13);
    AfterTwo(NEAR, v, k, k11);
    AfterTwo(FAR, v, k, k11);
    FirstBytes(p, k11);
    SpreadsToOne(NEAR, v, k11);
    SpreadsToOne(FAR, v, k11);
    EntriesOfChosen();
  }

  predicate Agree14(t: State, k: State, k11: State, k12: State, k13: State, k14: State) {
    Last(t, k) == Last(Round(Round(Round(Round(t, k), k11), k12), k13), k14)
  }

  lemma NineIsInjective(e: bv8, f: bv8)
    requires Mul(0x09, e) == Mul(0x09, f)
    ensures e == f
  {
    hide Add, Mul, XTime;
    MulAdd(0x09, e, f);
    AddUnits(Mul(0x09, e), 0);
    NineOfNone(Add(e, f));
    AddIsZero(e, f);
  }

  lemma NineOfNone(e: bv8)
    requires Mul(0x09, e) == 0
    ensures e == 0
  {
    hide Mul;
    FFmulInverse(e);
  }

  /** The S-box is not affine. */
  lemma NotAffine()
    ensures Add(SBox(0), SBox(Add(0, 0x28))) != Add(SBox(1), SBox(Add(1, 0x28)))
  {
    assert SBox(0) == 0x63 && SBox(0x28) == 0x34 && SBox(1) == 0x7c && SBox(0x29) == 0xa5;
  }

  lemma FourteenClash(k: State, k11: State, k12: State, k13: State, k14: State)
    ensures exists t :: !Agree14(t, k, k11, k12, k13, k14)
  {
    hide Agree14, Origin, SBox, Add, Mul, Tuned;
    if forall t :: Agree14(t, k, k11, k12, k13, k14) {
      var e := PairForces(0, k, k11, k12, k13, k14);
      var f := PairForces(1, k, k11, k12, k13, k14);
      NineIsInjective(e, f);
      NotAffine();
      assert false;
    }
  }

  /** For a schedule of 10, 12 or 14 rounds: the ten-round cipher agrees with the whole one on all states
      if and only if there are ten rounds. */
  lemma OnlyTenRoundsAgree(w: seq<State>)
    requires |w| == 11 || |w| == 13 || |w| == 15
    ensures (forall s :: Cipher(s, w[..11]) == Cipher(s, w)) <==> |w| == 11
  {
    hide Cipher, Last, Round, Start, Agree14;
    if |w| == 11 {
      assert w[..11] == w;
    } else if |w| == 13 {
      TwelveClash(w[10], w[11], w[12]);
      var t :| Last(t, w[10]) != Last(Round(Round(t, w[10]), w[11]), w[12]);
      TenFromNine(t, w);
      TwelveFromNine(t, w);
      assert Cipher(Start(t, w), w[..11]) != Cipher(Start(t, w), w);
    } else {
      FourteenClash(w[10], w[11], w[12], w[13], w[14]);
      var t :| !Agree14(t, w[10], w[11], w[12], w[13], w[14]);
      TenFromNine(t, w);
      FourteenFromNine(t, w);
      AgreeIs(t, w[10], w[11], w[12], w[13], w[14]);
      assert Cipher(Start(t, w), w[..11]) != Cipher(Start(t, w), w);
    }
  }

  lemma AgreeIs(t: State, k: State, k11: State, k12: State, k13: State, k14: State)
    ensures Agree14(t, k, k11, k12, k13, k14) <==>
            Last(t, k) == Last(Round(Round(Round(Round(t, k), k11), k12), k13), k14)
  {
    hide Last, Round;
  }

  /** What `my_encrypt` computes, for any schedule with an even number of rounds, is the cipher of FIPS-197
      under all its round keys, for every block, if and only if that number is ten. */
  lemma EncryptedIsCipher(e: seq<bv32>, nr: nat)
    requires |e| == KS_LENGTH && (nr == 10 || nr == 12 || nr == 14)
    ensures (forall b: Block :: Encrypted(b, e) == StateBlock(Cipher(BlockState(b), RoundKeys(e, nr)))) <==> nr == 10
  {
    hide Cipher, KeyAt, BlockState, StateBlock;
    var w := RoundKeys(e, nr);
    assert w[..11] == RoundKeys(e, 10);
    OnlyTenRoundsAgree(w);
    if nr == 10 {
      assert w[..11] == w;
    } else {
      var s :| Cipher(s, w[..11]) != Cipher(s, w);
      var b := StateBlock(s);
      BlockOfState(s, b);
      BlockOfState(Cipher(s, w[..11]), b);
      BlockOfState(Cipher(s, w), b);
      assert Encrypted(b, e) != StateBlock(Cipher(BlockState(b), w));
    }
  }
}
