/** crypt/aes.cpp as it is compiled: `BLOCK_SIZE` is 16, the rounds are unrolled, the state is held
    in two arrays of four words. */
module Aes {
  import opened AesTab
  import opened Gf
  import opened Fips197
  import opened AesWords
  import opened Arith

  const BAD := 0
  const GOOD := 1
  const NC := 4
  const KS_LENGTH := 64

  const ENC: bv8 := 1
  const DEC: bv8 := 2
  const BOTH: bv8 := 3

  // What words and bytes stand for.

  /** The state, or the round key, that begins at word `at`. */
  function KeyAt(w: seq<bv32>, at: nat): State
    requires at + 4 <= |w|
  {
    State(Col(w[at]), Col(w[at + 1]), Col(w[at + 2]), Col(w[at + 3]))
  }

  function ToState(x: seq<bv32>): State
    requires |x| == 4
  {
    KeyAt(x, 0)
  }

  function Cols(w: seq<bv32>): (r: seq<Column>)
    ensures |r| == |w|
  {
    seq(|w|, i requires 0 <= i < |w| => Col(w[i]))
  }

  /** The round keys 0 to `nr` of a schedule. */
  function RoundKeys(w: seq<bv32>, nr: nat): (r: seq<State>)
    requires 4 * (nr + 1) <= |w|
    ensures |r| == nr + 1
  {
    seq(nr + 1, i requires 0 <= i <= nr => KeyAt(w, 4 * i))
  }

  /** Word `i` of a key or a block. */
  function BytesCol(b: seq<bv8>, i: nat): Column
    requires 4 * i + 4 <= |b|
  {
    Column(b[4 * i], b[4 * i + 1], b[4 * i + 2], b[4 * i + 3])
  }

  function KeyWords(key: seq<bv8>): (r: seq<Column>)
    ensures |r| == |key| / 4
  {
    seq(|key| / 4, i requires 0 <= i < |key| / 4 => BytesCol(key, i))
  }

  type Block = b: seq<bv8> | |b| == 16 witness seq(16, _ => 0)

  function BlockState(b: Block): State {
    State(BytesCol(b, 0), BytesCol(b, 1), BytesCol(b, 2), BytesCol(b, 3))
  }

  /** Byte `4 c + r` of a block is in row `r` and column `c`. */
  lemma BlockByIndex(b: Block, s: State, r: nat, c: nat)
    requires r < 4 && c < 4
    ensures Entry(BlockState(b), r, c) == b[4 * c + r] && StateBlock(s)[4 * c + r] == Entry(s, r, c)
  {
    BlockOfState(s, b);
    BlockEntry(b, r, c);
    BlockEntry(StateBlock(s), r, c);
  }

  lemma BlockEntry(b: Block, r: nat, c: nat)
    requires r < 4 && c < 4
    ensures Entry(BlockState(b), r, c) == b[4 * c + r]
  {
    if c == 0 {
    } else if c == 1 {
    } else if c == 2 {
    }
  }

  function ColBytes(c: Column): seq<bv8> { [c.b0, c.b1, c.b2, c.b3] }

  function StateBlock(s: State): Block {
    ColBytes(s.c0) + ColBytes(s.c1) + ColBytes(s.c2) + ColBytes(s.c3)
  }

  lemma BlockOfState(s: State, b: Block)
    ensures BlockState(StateBlock(s)) == s && StateBlock(BlockState(b)) == b
  {
  }

  /** The block that the ten rounds make of `b`. */
  function Encrypted(b: Block, e: seq<bv32>): Block
    requires |e| == KS_LENGTH
  {
    StateBlock(Cipher(BlockState(b), RoundKeys(e, 10)))
  }

  function Decrypted(b: Block, d: seq<bv32>, nr: nat): Block
    requires |d| == KS_LENGTH && 10 <= nr <= 14
  {
    StateBlock(EqInvCipher(BlockState(b), RoundKeys(d, nr)))
  }

  // The schedule in words.

  function RconWord(i: nat): bv32
    requires i < RCON_LENGTH
  {
    RconTab(i) as bv32
  }

  /** The word that the loops of `set_key` compute for place `i`, from the word `nk` before it and
      the word before it. */
  function NextWord(far: bv32, near: bv32, nk: nat, i: nat): bv32
    requires 4 <= nk <= 8 && nk <= i < KS_LENGTH
  {
    if i % nk == 0 then Xor(Xor(far, LsBox3(near)), RconWord(RconIndex(nk, i)))
    else if nk > 6 && i % nk == 4 then Xor(far, LsBox0(near))
    else Xor(far, near)
  }

  /** The same by the block of `nk` words, number `m + 1`, and the place `j` in it. */
  function BlockWord(far: bv32, near: bv32, nk: nat, m: nat, j: nat): bv32
    requires m < RCON_LENGTH
  {
    if j == 0 then Xor(Xor(far, LsBox3(near)), RconWord(m))
    else if nk > 6 && j == 4 then Xor(far, LsBox0(near))
    else Xor(far, near)
  }

  lemma BlockIndex(nk: nat, m: nat, j: nat)
    requires 4 <= nk <= 8 && j < nk && nk * (m + 1) + j < KS_LENGTH
    ensures m < RCON_LENGTH && (nk * (m + 1) + j) % nk == j && (nk * (m + 1) + j) / nk == m + 1
  {
    QuotientIs(nk * (m + 1) + j, nk, m + 1, j);
    MulUp(m + 1, 4, nk);
  }

  lemma NextWordInBlock(far: bv32, near: bv32, nk: nat, m: nat, j: nat)
    requires 4 <= nk <= 8 && j < nk && nk * (m + 1) + j < KS_LENGTH
    ensures m < RCON_LENGTH && NextWord(far, near, nk, nk * (m + 1) + j) == BlockWord(far, near, nk, m, j)
  {
    hide Xor, LsBox3, LsBox0, RconWord;
    BlockIndex(nk, m, j);
  }

  ghost predicate IsSchedule(w: seq<bv32>, nk: nat, n: nat) {
    && 4 <= nk <= 8 && nk <= n <= |w| <= KS_LENGTH
    && forall i | nk <= i < n :: w[i] == NextWord(w[i - nk], w[i - 1], nk, i)
  }

  lemma ScheduleStarts(w: seq<bv32>, nk: nat)
    requires 4 <= nk <= 8 && nk <= |w| <= KS_LENGTH
    ensures IsSchedule(w, nk, nk)
  {
  }

  lemma ColOfNextWord(far: bv32, near: bv32, nk: nat, i: nat)
    requires 4 <= nk <= 8 && nk <= i < KS_LENGTH
    ensures Col(NextWord(far, near, nk, i)) == AddColumn(Col(far), ScheduleWord(Col(near), nk, i))
  {
    hide Xor, LsBox3, LsBox0, Col, AddColumn, SubColumn, Rotated, RconTab, XPower;
    ColOfLsBox(near);
    if i % nk == 0 {
      var n := RconIndex(nk, i);
      var rcon := RconWord(n);
      RconIsXPower(n);
      ColOfXor(far, LsBox3(near));
      ColOfXor(Xor(far, LsBox3(near)), rcon);
      ColOfByte(RconTab(n));
      AddColumnAssoc(Col(far), Col(LsBox3(near)), Col(rcon));
    } else if nk > 6 && i % nk == 4 {
      ColOfXor(far, LsBox0(near));
    } else {
      ColOfXor(far, near);
    }
  }

  lemma ColOfByte(b: bv8)
    ensures Col(b as bv32) == Column(b, 0, 0, 0)
  {
  }

  lemma AddColumnAssoc(x: Column, y: Column, z: Column)
    ensures AddColumn(AddColumn(x, y), z) == AddColumn(x, AddColumn(y, z))
  {
    hide Add;
    AddAssoc(x.b0, y.b0, z.b0);
    AddAssoc(x.b1, y.b1, z.b1);
    AddAssoc(x.b2, y.b2, z.b2);
    AddAssoc(x.b3, y.b3, z.b3);
  }

  /** A schedule is the key expansion of its first `nk` words. */
  lemma {:induction false} ScheduleIsKeyExpansion(w: seq<bv32>, nk: nat, n: nat)
    requires IsSchedule(w, nk, n)
    ensures Cols(w[..n]) == KeyExpansion(Cols(w[..nk]), n)
    decreases n
  {
    hide Cols, KeyExpansion;
    ScheduleSizes(w, nk, n);
    if n == nk {
      KeyItself(Cols(w[..nk]));
    } else {
      ScheduleIsKeyExpansion(w, nk, n - 1);
      OneMoreWord(w, nk, n);
      KeyExpansionOnce(Cols(w[..nk]), n);
    }
  }

  lemma ScheduleSizes(w: seq<bv32>, nk: nat, n: nat)
    requires IsSchedule(w, nk, n)
    ensures 4 <= nk <= n <= |w| && (n > nk ==> IsSchedule(w, nk, n - 1))
  {
    hide NextWord;
  }

  /** The last word of a schedule as a column, from columns before it. */
  lemma OneMoreWord(w: seq<bv32>, nk: nat, n: nat)
    requires IsSchedule(w, nk, n) && n > nk
    ensures var before := Cols(w[..n - 1]);
            Cols(w[..n]) == before + [AddColumn(before[n - 1 - nk], ScheduleWord(before[n - 2], nk, n - 1))]
  {
    hide Col, NextWord, ScheduleWord, AddColumn;
    assert w[n - 1] == NextWord(w[n - 1 - nk], w[n - 2], nk, n - 1);
    ColOfNextWord(w[n - 1 - nk], w[n - 2], nk, n - 1);
    assert Cols(w[..n]) == Cols(w[..n - 1]) + [Col(w[n - 1])];
  }

  lemma KeyExpansionOnce(key: seq<Column>, n: nat)
    requires n > |key| >= 1
    ensures var w := KeyExpansion(key, n - 1);
            KeyExpansion(key, n) == w + [AddColumn(w[n - 1 - |key|], ScheduleWord(w[n - 2], |key|, n - 1))]
  {
    hide AddColumn, ScheduleWord;
  }

  lemma KeyItself(key: seq<Column>)
    requires |key| >= 1
    ensures KeyExpansion(key, |key|) == key
  {
  }

  /** `Nr` for a state of four columns. */
  function KeyRounds(nk: nat): nat { (if nk > NC then nk else NC) + 6 }

  /** The key lengths and directions that `set_key` takes. */
  predicate AcceptsKey(nBytes: nat, f: bv8) {
    nBytes % 4 == 0 && 16 <= nBytes <= 32 && (f & ENC != 0 || f & DEC != 0)
  }

  /** Round keys 0 to `i - 1` of `e` are in their places in `d`, counted from the end. */
  ghost predicate Mirrored(d: seq<bv32>, e: seq<bv32>, nr: nat, i: nat) {
    && |d| == |e| == KS_LENGTH && 1 <= i <= nr <= 14
    && KeyAt(d, 4 * nr) == KeyAt(e, 0)
    && forall r | 1 <= r < i :: KeyAt(d, 4 * (nr - r)) == InvMixColumns(KeyAt(e, 4 * r))
  }

  /** Two schedules that differ only in the key at `at`. */
  ghost predicate DifferAt(d: seq<bv32>, d': seq<bv32>, at: int) {
    |d| == |d'| && forall j | 0 <= j < |d| && !(at <= j < at + 4) :: d'[j] == d[j]
  }

  lemma MirroredStarts(d: seq<bv32>, e: seq<bv32>, nr: nat)
    requires |d| == |e| == KS_LENGTH && 1 <= nr <= 14 && KeyAt(d, 4 * nr) == KeyAt(e, 0)
    ensures Mirrored(d, e, nr, 1)
  {
  }

  lemma MirroredStep(d: seq<bv32>, d': seq<bv32>, e: seq<bv32>, nr: nat, i: nat)
    requires Mirrored(d, e, nr, i) && i < nr && DifferAt(d, d', 4 * (nr - i))
    requires KeyAt(d', 4 * (nr - i)) == InvMixColumns(KeyAt(e, 4 * i))
    ensures Mirrored(d', e, nr, i + 1)
  {
    hide Col, InvMixColumns;
    forall r | 1 <= r < i + 1 ensures KeyAt(d', 4 * (nr - r)) == InvMixColumns(KeyAt(e, 4 * r)) {
      assert r < i ==> KeyAt(d', 4 * (nr - r)) == KeyAt(d, 4 * (nr - r));
    }
  }

  lemma MirroredEnds(d: seq<bv32>, d': seq<bv32>, e: seq<bv32>, nr: nat)
    requires Mirrored(d, e, nr, nr) && DifferAt(d, d', 0) && KeyAt(d', 0) == KeyAt(e, 4 * nr)
    ensures IsInverseSchedule(RoundKeys(d', nr), RoundKeys(e, nr))
  {
    hide Col, InvMixColumns;
    var dw, w := RoundKeys(d', nr), RoundKeys(e, nr);
    forall n | 0 < n < nr ensures dw[n] == InvMixColumns(w[nr - n]) {
      assert dw[n] == KeyAt(d, 4 * (nr - (nr - n)));
    }
  }

  /** A schedule that begins with the words of a key is the expansion of that key. */
  lemma ScheduleOfKey(w: seq<bv32>, key: seq<bv8>, nk: nat, n: nat, wanted: nat)
    requires IsSchedule(w, nk, n) && nk <= wanted <= n && |key| == 4 * nk
    requires forall j | 0 <= j < nk :: Col(w[j]) == BytesCol(key, j)
    ensures Cols(w[..wanted]) == KeyExpansion(KeyWords(key), wanted)
  {
    hide Col, NextWord, KeyExpansion;
    ScheduleIsKeyExpansion(w, nk, wanted);
    assert Cols(w[..nk]) == KeyWords(key);
  }

  // The schedule byte by byte.

  /** Byte `j` of a word, the lowest first. */
  function ByteOf(w: bv32, j: nat): bv8
    requires j < 4
  {
    if j == 0 then (w % 0x100) as bv8
    else if j == 1 then (w / 0x100 % 0x100) as bv8
    else if j == 2 then (w / 0x1_0000 % 0x100) as bv8
    else (w / 0x100_0000) as bv8
  }

  lemma ByteOfCol(w: bv32, j: nat)
    requires j < 4
    ensures ByteOf(w, j) == Row(Col(w), j)
  {
    if j == 0 {
    } else if j == 1 {
    } else if j == 2 {
    }
  }

  /** What byte `j` of word `i` adds to that of the word `nk` before it; `near` is word `i - 1`. */
  function ScheduleByte(near: bv32, nk: nat, i: nat, j: nat): bv8
    requires 4 <= nk <= i && j < 4
  {
    if i % nk == 0 then
      assert i / nk >= 1;
      Add(SBox(ByteOf(near, (j + 1) % 4)), if j == 0 then XPower(i / nk - 1) else 0)
    else if nk > 6 && i % nk == 4 then SBox(ByteOf(near, j))
    else ByteOf(near, j)
  }

  /** The first `n` words of `e` hold the key and what follows from it. */
  ghost predicate Expands(e: seq<bv32>, key: seq<bv8>, n: nat) {
    && 16 <= |key| <= 4 * n && |key| % 4 == 0 && n <= |e|
    && (forall i, j | 0 <= i < |key| / 4 && 0 <= j < 4 :: ByteOf(e[i], j) == key[4 * i + j])
    && (forall i, j | |key| / 4 <= i < n && 0 <= j < 4 :: FollowsFrom(e, |key| / 4, i, j))
  }

  /** Byte `j` of word `i` follows from the words before it. */
  predicate FollowsFrom(e: seq<bv32>, nk: nat, i: nat, j: nat)
    requires 4 <= nk <= i < |e| && j < 4
  {
    ByteOf(e[i], j) == Add(ByteOf(e[i - nk], j), ScheduleByte(e[i - 1], nk, i, j))
  }

  lemma RowOfSchedule(t: Column, near: bv32, nk: nat, i: nat, j: nat)
    requires 4 <= nk <= i && j < 4 && t == Col(near)
    ensures Row(ScheduleWord(t, nk, i), j) == ScheduleByte(near, nk, i, j)
  {
    hide Col, ByteOf, SBox, XPower, AddColumn, SubColumn, Add, Row;
    ByteOfCol(near, j);
    ByteOfCol(near, (j + 1) % 4);
    RowOfSub(t, j);
    RowOfRotated(t, j);
    RowOfSub(Rotated(t), j);
    assert i / nk >= 1;
    var rcon := Column(XPower(i / nk - 1), 0, 0, 0);
    RowOfFirst(XPower(i / nk - 1), j);
    RowOfSum(SubColumn(Rotated(t)), rcon, j);
  }

  lemma RowOfRotated(t: Column, j: nat)
    requires j < 4
    ensures Row(Rotated(t), j) == Row(t, (j + 1) % 4)
  {
  }

  lemma RowOfFirst(b: bv8, j: nat)
    requires j < 4
    ensures Row(Column(b, 0, 0, 0), j) == if j == 0 then b else 0
  {
  }

  lemma NextByte(far: bv32, near: bv32, nk: nat, i: nat, j: nat)
    requires 4 <= nk <= 8 && nk <= i < KS_LENGTH && j < 4
    ensures ByteOf(NextWord(far, near, nk, i), j) == Add(ByteOf(far, j), ScheduleByte(near, nk, i, j))
  {
    hide Col, ByteOf, NextWord, ScheduleWord, ScheduleByte, AddColumn, Add, Row;
    ColOfNextWord(far, near, nk, i);
    ByteOfCol(NextWord(far, near, nk, i), j);
    ByteOfCol(far, j);
    RowOfSchedule(Col(near), near, nk, i, j);
    RowOfSum(Col(far), ScheduleWord(Col(near), nk, i), j);
  }

  lemma ScheduleExpands(w: seq<bv32>, key: seq<bv8>, nk: nat, n: nat, wanted: nat)
    requires IsSchedule(w, nk, n) && nk <= wanted <= n && |key| == 4 * nk
    requires forall j | 0 <= j < nk :: Col(w[j]) == BytesCol(key, j)
    ensures Expands(w, key, wanted)
  {
    hide Col, ByteOf, NextWord, ScheduleByte, Add;
    assert |key| / 4 == nk;
    forall i, j | 0 <= i < nk && 0 <= j < 4 ensures ByteOf(w[i], j) == key[4 * i + j] {
      ByteOfCol(w[i], j);
      assert Col(w[i]) == BytesCol(key, i);
    }
    forall i, j | nk <= i < wanted && 0 <= j < 4 ensures FollowsFrom(w, nk, i, j) {
      assert w[i] == NextWord(w[i - nk], w[i - 1], nk, i);
      NextByte(w[i - nk], w[i - 1], nk, i, j);
    }
  }

  lemma ModeDecrypts(mode: bv8, f: bv8)
    requires f & ENC != 0 || f & DEC != 0
    ensures ((mode & 0xfc) | (f & BOTH)) & 3 != ENC <==> f & DEC != 0
  {
  }

  lemma SplitBlock(b: seq<bv8>, off: nat)
    requires off + 16 <= |b|
    ensures b[off..off + 16] == b[off..off + 4] + b[off + 4..off + 8] + b[off + 8..off + 12] + b[off + 12..off + 16]
  {
    assert b[off..off + 8] == b[off..off + 4] + b[off + 4..off + 8];
    assert b[off..off + 12] == b[off..off + 8] + b[off + 8..off + 12];
    assert b[off..off + 16] == b[off..off + 12] + b[off + 12..off + 16];
  }

  // How a run of rounds starts and ends.

  lemma RoundsStart(start: State, e: seq<bv32>)
    requires |e| == KS_LENGTH
    ensures Rounds(start, RoundKeys(e, 10), 0) == start
  {
  }

  lemma CipherEnds(b: Block, e: seq<bv32>)
    requires |e| == KS_LENGTH
    ensures var start := AddRoundKey(BlockState(b), KeyAt(e, 0));
            Encrypted(b, e) ==
            StateBlock(AddRoundKey(ShiftRows(SubBytes(Rounds(start, RoundKeys(e, 10), 9))), KeyAt(e, 40)))
  {
    hide KeyAt, AddRoundKey, ShiftRows, SubBytes, Rounds;
  }

  lemma EqInvRoundsStart(start: State, d: seq<bv32>, nr: nat)
    requires |d| == KS_LENGTH && 10 <= nr <= 14
    ensures EqInvRounds(start, RoundKeys(d, nr), 0) == start
  {
  }

  lemma EqInvCipherEnds(b: Block, d: seq<bv32>, nr: nat)
    requires |d| == KS_LENGTH && 10 <= nr <= 14
    ensures var start := AddRoundKey(BlockState(b), KeyAt(d, 0));
            Decrypted(b, d, nr) ==
            StateBlock(AddRoundKey(InvShiftRows(InvSubBytes(EqInvRounds(start, RoundKeys(d, nr), nr - 1))),
                                   KeyAt(d, 4 * nr)))
  {
    hide KeyAt, AddRoundKey, InvShiftRows, InvSubBytes, EqInvRounds;
  }

  class AesContext {
    var nKey: nat
    var nRnd: nat
    var mode: bv8
    const eKey: array<bv32>
    const dKey: array<bv32>

    ghost predicate Valid() {
      eKey.Length == dKey.Length == KS_LENGTH && eKey != dKey
    }

    constructor ()
      ensures Valid() && fresh(eKey) && fresh(dKey) && mode == 0
    {
      eKey := new bv32[KS_LENGTH];
      dKey := new bv32[KS_LENGTH];
      mode := 0;
    }

    /** Stores word `j` of the block after the one at `kf`. */
    method Store(nk: nat, ghost m: nat, kf: nat, j: nat, word: bv32)
      requires Valid() && 4 <= nk <= 8 && j < nk && kf == nk * m && kf + nk + j < KS_LENGTH
      requires IsSchedule(eKey[..], nk, kf + nk + j) && m < RCON_LENGTH
      requires word == BlockWord(eKey[kf + j], eKey[kf + nk + j - 1], nk, m, j)
      modifies eKey
      ensures eKey[kf + nk + j] == word
      ensures forall i | 0 <= i < KS_LENGTH && i != kf + nk + j :: eKey[i] == old(eKey[i])
      ensures IsSchedule(eKey[..], nk, kf + nk + j + 1)
    {
      hide NextWord, BlockWord;
      NextWordInBlock(eKey[kf + j], eKey[kf + nk + j - 1], nk, m, j);
      eKey[kf + nk + j] := word;
    }

    // One pass of each loop of the switch, and the loop.

    method Block4Low(kf: nat, rci: nat)
      requires Valid() && kf == 4 * rci && kf <= 36 && IsSchedule(eKey[..], 4, kf + 4)
      modifies eKey
      ensures IsSchedule(eKey[..], 4, kf + 6) && eKey[..kf + 4] == old(eKey[..kf + 4])
    {
      hide Xor, LsBox3, LsBox0, RconWord, IsSchedule;
      Store(4, rci, kf, 0, Xor(Xor(eKey[kf], LsBox3(eKey[kf + 3])), RconWord(rci)));
      Store(4, rci, kf, 1, Xor(eKey[kf + 1], eKey[kf + 4]));
    }

    method Block4High(kf: nat, rci: nat)
      requires Valid() && kf == 4 * rci && kf <= 36 && IsSchedule(eKey[..], 4, kf + 6)
      modifies eKey
      ensures IsSchedule(eKey[..], 4, kf + 8) && eKey[..kf + 4] == old(eKey[..kf + 4])
    {
      hide Xor, LsBox3, LsBox0, RconWord, IsSchedule;
      Store(4, rci, kf, 2, Xor(eKey[kf + 2], eKey[kf + 5]));
      Store(4, rci, kf, 3, Xor(eKey[kf + 3], eKey[kf + 6]));
    }

    method Block4(kf: nat, rci: nat)
      requires Valid() && kf == 4 * rci && kf <= 36 && IsSchedule(eKey[..], 4, kf + 4)
      modifies eKey
      ensures IsSchedule(eKey[..], 4, kf + 8) && eKey[..kf + 4] == old(eKey[..kf + 4])
    {
      hide IsSchedule;
      Block4Low(kf, rci);
      Block4High(kf, rci);
    }

    method Expand4(kt: nat)
      requires Valid() && kt == NC * (KeyRounds(4) + 1) - 4
      modifies eKey
      ensures eKey[..4] == old(eKey[..4]) && IsSchedule(eKey[..], 4, 44)
    {
      hide IsSchedule;
      var kf, rci := 0, 0;
      ScheduleStarts(eKey[..], 4);
      while kf < kt
        invariant kf == 4 * rci && kf <= 40 && eKey[..4] == old(eKey[..4])
        invariant IsSchedule(eKey[..], 4, kf + 4)
      {
        Block4(kf, rci);
        rci := rci + 1;
        kf := kf + 4;
      }
    }

    method Block5Low(kf: nat, rci: nat)
      requires Valid() && kf == 5 * rci && kf <= 40 && IsSchedule(eKey[..], 5, kf + 5)
      modifies eKey
      ensures IsSchedule(eKey[..], 5, kf + 8) && eKey[..kf + 5] == old(eKey[..kf + 5])
    {
      hide Xor, LsBox3, LsBox0, RconWord, IsSchedule;
      Store(5, rci, kf, 0, Xor(Xor(eKey[kf], LsBox3(eKey[kf + 4])), RconWord(rci)));
      Store(5, rci, kf, 1, Xor(eKey[kf + 1], eKey[kf + 5]));
      Store(5, rci, kf, 2, Xor(eKey[kf + 2], eKey[kf + 6]));
    }

    method Block5High(kf: nat, rci: nat)
      requires Valid() && kf == 5 * rci && kf <= 40 && IsSchedule(eKey[..], 5, kf + 8)
      modifies eKey
      ensures IsSchedule(eKey[..], 5, kf + 10) && eKey[..kf + 5] == old(eKey[..kf + 5])
    {
      hide Xor, LsBox3, LsBox0, RconWord, IsSchedule;
      Store(5, rci, kf, 3, Xor(eKey[kf + 3], eKey[kf + 7]));
      Store(5, rci, kf, 4, Xor(eKey[kf + 4], eKey[kf + 8]));
    }

    method Block5(kf: nat, rci: nat)
      requires Valid() && kf == 5 * rci && kf <= 40 && IsSchedule(eKey[..], 5, kf + 5)
      modifies eKey
      ensures IsSchedule(eKey[..], 5, kf + 10) && eKey[..kf + 5] == old(eKey[..kf + 5])
    {
      hide IsSchedule;
      Block5Low(kf, rci);
      Block5High(kf, rci);
    }

    method Expand5(kt: nat)
      requires Valid() && kt == NC * (KeyRounds(5) + 1) - 5
      modifies eKey
      ensures eKey[..5] == old(eKey[..5]) && IsSchedule(eKey[..], 5, 50)
    {
      hide IsSchedule;
      var kf, rci := 0, 0;
      ScheduleStarts(eKey[..], 5);
      while kf < kt
        invariant kf == 5 * rci && kf <= 45 && eKey[..5] == old(eKey[..5])
        invariant IsSchedule(eKey[..], 5, kf + 5)
      {
        Block5(kf, rci);
        rci := rci + 1;
        kf := kf + 5;
      }
    }

    method Block6Low(kf: nat, rci: nat)
      requires Valid() && kf == 6 * rci && kf <= 42 && IsSchedule(eKey[..], 6, kf + 6)
      modifies eKey
      ensures IsSchedule(eKey[..], 6, kf + 9) && eKey[..kf + 6] == old(eKey[..kf + 6])
    {
      hide Xor, LsBox3, LsBox0, RconWord, IsSchedule;
      Store(6, rci, kf, 0, Xor(Xor(eKey[kf], LsBox3(eKey[kf + 5])), RconWord(rci)));
      Store(6, rci, kf, 1, Xor(eKey[kf + 1], eKey[kf + 6]));
      Store(6, rci, kf, 2, Xor(eKey[kf + 2], eKey[kf + 7]));
    }

    method Block6High(kf: nat, rci: nat)
      requires Valid() && kf == 6 * rci && kf <= 42 && IsSchedule(eKey[..], 6, kf + 9)
      modifies eKey
      ensures IsSchedule(eKey[..], 6, kf + 12) && eKey[..kf + 6] == old(eKey[..kf + 6])
    {
      hide Xor, LsBox3, LsBox0, RconWord, IsSchedule;
      Store(6, rci, kf, 3, Xor(eKey[kf + 3], eKey[kf + 8]));
      Store(6, rci, kf, 4, Xor(eKey[kf + 4], eKey[kf + 9]));
      Store(6, rci, kf, 5, Xor(eKey[kf + 5], eKey[kf + 10]));
    }

    method Block6(kf: nat, rci: nat)
      requires Valid() && kf == 6 * rci && kf <= 42 && IsSchedule(eKey[..], 6, kf + 6)
      modifies eKey
      ensures IsSchedule(eKey[..], 6, kf + 12) && eKey[..kf + 6] == old(eKey[..kf + 6])
    {
      hide IsSchedule;
      Block6Low(kf, rci);
      Block6High(kf, rci);
    }

    method Expand6(kt: nat)
      requires Valid() && kt == NC * (KeyRounds(6) + 1) - 6
      modifies eKey
      ensures eKey[..6] == old(eKey[..6]) && IsSchedule(eKey[..], 6, 54)
    {
      hide IsSchedule;
      var kf, rci := 0, 0;
      ScheduleStarts(eKey[..], 6);
      while kf < kt
        invariant kf == 6 * rci && kf <= 48 && eKey[..6] == old(eKey[..6])
        invariant IsSchedule(eKey[..], 6, kf + 6)
      {
        Block6(kf, rci);
        rci := rci + 1;
        kf := kf + 6;
      }
    }

    method Block7Low(kf: nat, rci: nat)
      requires Valid() && kf == 7 * rci && kf <= 42 && IsSchedule(eKey[..], 7, kf + 7)
      modifies eKey
      ensures IsSchedule(eKey[..], 7, kf + 11) && eKey[..kf + 7] == old(eKey[..kf + 7])
    {
      hide Xor, LsBox3, LsBox0, RconWord, IsSchedule;
      Store(7, rci, kf, 0, Xor(Xor(eKey[kf], LsBox3(eKey[kf + 6])), RconWord(rci)));
      Store(7, rci, kf, 1, Xor(eKey[kf + 1], eKey[kf + 7]));
      Store(7, rci, kf, 2, Xor(eKey[kf + 2], eKey[kf + 8]));
      Store(7, rci, kf, 3, Xor(eKey[kf + 3], eKey[kf + 9]));
    }

    method Block7High(kf: nat, rci: nat)
      requires Valid() && kf == 7 * rci && kf <= 42 && IsSchedule(eKey[..], 7, kf + 11)
      modifies eKey
      ensures IsSchedule(eKey[..], 7, kf + 14) && eKey[..kf + 7] == old(eKey[..kf + 7])
    {
      hide Xor, LsBox3, LsBox0, RconWord, IsSchedule;
      Store(7, rci, kf, 4, Xor(eKey[kf + 4], LsBox0(eKey[kf + 10])));
      Store(7, rci, kf, 5, Xor(eKey[kf + 5], eKey[kf + 11]));
      Store(7, rci, kf, 6, Xor(eKey[kf + 6], eKey[kf + 12]));
    }

    method Block7(kf: nat, rci: nat)
      requires Valid() && kf == 7 * rci && kf <= 42 && IsSchedule(eKey[..], 7, kf + 7)
      modifies eKey
      ensures IsSchedule(eKey[..], 7, kf + 14) && eKey[..kf + 7] == old(eKey[..kf + 7])
    {
      hide IsSchedule;
      Block7Low(kf, rci);
      Block7High(kf, rci);
    }

    method Expand7(kt: nat)
      requires Valid() && kt == NC * (KeyRounds(7) + 1) - 7
      modifies eKey
      ensures eKey[..7] == old(eKey[..7]) && IsSchedule(eKey[..], 7, 56)
    {
      hide IsSchedule;
      var kf, rci := 0, 0;
      ScheduleStarts(eKey[..], 7);
      while kf < kt
        invariant kf == 7 * rci && kf <= 49 && eKey[..7] == old(eKey[..7])
        invariant IsSchedule(eKey[..], 7, kf + 7)
      {
        Block7(kf, rci);
        rci := rci + 1;
        kf := kf + 7;
      }
    }

    method Block8Low(kf: nat, rci: nat)
      requires Valid() && kf == 8 * rci && kf <= 48 && IsSchedule(eKey[..], 8, kf + 8)
      modifies eKey
      ensures IsSchedule(eKey[..], 8, kf + 12) && eKey[..kf + 8] == old(eKey[..kf + 8])
    {
      hide Xor, LsBox3, LsBox0, RconWord, IsSchedule;
      Store(8, rci, kf, 0, Xor(Xor(eKey[kf], LsBox3(eKey[kf + 7])), RconWord(rci)));
      Store(8, rci, kf, 1, Xor(eKey[kf + 1], eKey[kf + 8]));
      Store(8, rci, kf, 2, Xor(eKey[kf + 2], eKey[kf + 9]));
      Store(8, rci, kf, 3, Xor(eKey[kf + 3], eKey[kf + 10]));
    }

    method Block8High(kf: nat, rci: nat)
      requires Valid() && kf == 8 * rci && kf <= 48 && IsSchedule(eKey[..], 8, kf + 12)
      modifies eKey
      ensures IsSchedule(eKey[..], 8, kf + 16) && eKey[..kf + 8] == old(eKey[..kf + 8])
    {
      hide Xor, LsBox3, LsBox0, RconWord, IsSchedule;
      Store(8, rci, kf, 4, Xor(eKey[kf + 4], LsBox0(eKey[kf + 11])));
      Store(8, rci, kf, 5, Xor(eKey[kf + 5], eKey[kf + 12]));
      Store(8, rci, kf, 6, Xor(eKey[kf + 6], eKey[kf + 13]));
      Store(8, rci, kf, 7, Xor(eKey[kf + 7], eKey[kf + 14]));
    }

    method Block8(kf: nat, rci: nat)
      requires Valid() && kf == 8 * rci && kf <= 48 && IsSchedule(eKey[..], 8, kf + 8)
      modifies eKey
      ensures IsSchedule(eKey[..], 8, kf + 16) && eKey[..kf + 8] == old(eKey[..kf + 8])
    {
      hide IsSchedule;
      Block8Low(kf, rci);
      Block8High(kf, rci);
    }

    method Expand8(kt: nat)
      requires Valid() && kt == NC * (KeyRounds(8) + 1) - 8
      modifies eKey
      ensures eKey[..8] == old(eKey[..8]) && IsSchedule(eKey[..], 8, 64)
    {
      hide IsSchedule;
      var kf, rci := 0, 0;
      ScheduleStarts(eKey[..], 8);
      while kf < kt
        invariant kf == 8 * rci && kf <= 56 && eKey[..8] == old(eKey[..8])
        invariant IsSchedule(eKey[..], 8, kf + 8)
      {
        Block8(kf, rci);
        rci := rci + 1;
        kf := kf + 8;
      }
    }

    /** `cpy`: copies a round key into the decryption schedule. */
    method Cpy(kt: nat, kf: nat)
      requires Valid() && kt + 4 <= KS_LENGTH && kf + 4 <= KS_LENGTH
      modifies dKey
      ensures KeyAt(dKey[..], kt) == KeyAt(eKey[..], kf)
      ensures forall i | 0 <= i < KS_LENGTH && !(kt <= i < kt + 4) :: dKey[i] == old(dKey[i])
    {
      hide Col;
      dKey[kt], dKey[kt + 1], dKey[kt + 2], dKey[kt + 3] := eKey[kf], eKey[kf + 1], eKey[kf + 2], eKey[kf + 3];
    }

    /** `mix`: the same through the inverse column mix. */
    method Mix(kt: nat, kf: nat)
      requires Valid() && kt + 4 <= KS_LENGTH && kf + 4 <= KS_LENGTH
      modifies dKey
      ensures KeyAt(dKey[..], kt) == InvMixColumns(KeyAt(eKey[..], kf))
      ensures forall i | 0 <= i < KS_LENGTH && !(kt <= i < kt + 4) :: dKey[i] == old(dKey[i])
    {
      hide Col, InvMcol, InvMixColumn;
      ColOfInvMcol(eKey[kf]);
      ColOfInvMcol(eKey[kf + 1]);
      ColOfInvMcol(eKey[kf + 2]);
      ColOfInvMcol(eKey[kf + 3]);
      dKey[kt], dKey[kt + 1], dKey[kt + 2], dKey[kt + 3] :=
        InvMcol(eKey[kf]), InvMcol(eKey[kf + 1]), InvMcol(eKey[kf + 2]), InvMcol(eKey[kf + 3]);
    }

    /** The decryption half of `set_key`. */
    method Mirror()
      requires Valid() && 10 <= nRnd <= 14
      modifies dKey
      ensures IsInverseSchedule(RoundKeys(dKey[..], nRnd), RoundKeys(eKey[..], nRnd))
    {
      hide KeyAt, Mirrored, InvMixColumns;
      var kt: int, kf := NC * nRnd, 0;
      Cpy(kt, kf);
      kt, kf := kt + 4 - 2 * NC, kf + 4;
      assert Mirrored(dKey[..], eKey[..], nRnd, 1) by { MirroredStarts(dKey[..], eKey[..], nRnd); }
      var i := 1;
      while i < nRnd
        invariant 1 <= i <= nRnd && kf == 4 * i && kt == 4 * (nRnd - i)
        invariant Mirrored(dKey[..], eKey[..], nRnd, i)
      {
        ghost var d := dKey[..];
        Mix(kt, kf);
        MirroredStep(d, dKey[..], eKey[..], nRnd, i);
        kt, kf := kt + 4 - 2 * NC, kf + 4;
        i := i + 1;
      }
      ghost var d := dKey[..];
      Cpy(kt, kf);
      MirroredEnds(d, dKey[..], eKey[..], nRnd);
    }

    /** `e_key[j] = word_in(in_key + 4 * j)`. */
    method Load(inKey: array<bv8>, j: nat)
      requires Valid() && 4 * j + 4 <= inKey.Length && j < 8
      modifies eKey
      ensures Col(eKey[j]) == BytesCol(inKey[..], j)
      ensures forall i | 0 <= i < KS_LENGTH && i != j :: eKey[i] == old(eKey[i])
    {
      hide Bytes2Word, Bval0, Bval1, Bval2, Bval3;
      eKey[j] := Bytes2Word(inKey[4 * j], inKey[4 * j + 1], inKey[4 * j + 2], inKey[4 * j + 3]);
      ColOfBytes(inKey[4 * j], inKey[4 * j + 1], inKey[4 * j + 2], inKey[4 * j + 3]);
    }

    /** The first words of the schedule are those of the key. */
    method LoadKey(inKey: array<bv8>)
      requires Valid() && 4 <= nKey <= 8 && 4 * nKey <= inKey.Length
      modifies eKey
      ensures forall j | 0 <= j < nKey :: Col(eKey[j]) == BytesCol(inKey[..], j)
    {
      hide Col, BytesCol;
      Load(inKey, 0);
      Load(inKey, 1);
      Load(inKey, 2);
      Load(inKey, 3);
      var j := 4;
      while j < nKey
        invariant 4 <= j <= nKey
        invariant forall i | 0 <= i < j :: Col(eKey[i]) == BytesCol(inKey[..], i)
      {
        Load(inKey, j);
        j := j + 1;
      }
    }

    /** The switch over the length of the key. */
    method ExpandKey(kt: nat) returns (ghost n: nat)
      requires Valid() && 4 <= nKey <= 8 && kt == NC * (KeyRounds(nKey) + 1) - nKey
      modifies eKey
      ensures eKey[..nKey] == old(eKey[..nKey]) && IsSchedule(eKey[..], nKey, n) && n >= kt + nKey
    {
      hide IsSchedule;
      match nKey {
        case 4 => Expand4(kt); n := 44;
        case 5 => Expand5(kt); n := 50;
        case 6 => Expand6(kt); n := 54;
        case 7 => Expand7(kt); n := 56;
        case _ => Expand8(kt); n := 64;
      }
    }

    method SetKey(inKey: array<bv8>, nBytes: nat, f: bv8) returns (ret: nat)
      requires Valid() && (AcceptsKey(nBytes, f) ==> nBytes <= inKey.Length)
      modifies this, eKey, dKey
      ensures !AcceptsKey(nBytes, f) ==>
        && nKey == old(nKey) && nRnd == old(nRnd) && eKey[..] == old(eKey[..]) && dKey[..] == old(dKey[..])
        && (nBytes != 0 ==> ret == BAD && mode == old(mode) & 0xfc)
        && (nBytes == 0 ==> ret == 4 * nKey && mode == old(mode))
      ensures AcceptsKey(nBytes, f) ==>
        && ret == GOOD && nKey == nBytes / 4 && nRnd == nKey + 6
        && mode == (old(mode) & 0xfc) | (f & BOTH)
        && Expands(eKey[..], inKey[..nBytes], NC * (nRnd + 1))
        && Cols(eKey[..NC * (nRnd + 1)]) == KeyExpansion(KeyWords(inKey[..nBytes]), NC * (nRnd + 1))
        && (f & DEC != 0 ==> IsInverseSchedule(RoundKeys(dKey[..], nRnd), RoundKeys(eKey[..], nRnd)))
        && (f & DEC == 0 ==> dKey[..] == old(dKey[..]))
    {
      hide Col, Cols, KeyWords, KeyExpansion, IsSchedule, RoundKeys, IsInverseSchedule, Expands;
      if nBytes % 4 != 0 || nBytes < 16 || nBytes > 32 || (f & ENC == 0 && f & DEC == 0) {
        if nBytes != 0 {
          mode := mode & 0xfc;
          return BAD;
        }
        return 4 * nKey;
      }
      mode := (mode & 0xfc) | (f & BOTH);
      nKey := nBytes / 4;
      nRnd := KeyRounds(nKey);
      LoadKey(inKey);
      ghost var e := eKey[..];
      ghost var n := ExpandKey(NC * (nRnd + 1) - nKey);
      assert forall j | 0 <= j < nKey :: eKey[..nKey][j] == e[j];
      assert forall j | 0 <= j < nKey :: BytesCol(inKey[..nBytes], j) == BytesCol(inKey[..], j);
      ScheduleOfKey(eKey[..], inKey[..nBytes], nKey, n, NC * (nRnd + 1));
      ScheduleExpands(eKey[..], inKey[..nBytes], nKey, n, NC * (nRnd + 1));
      ModeDecrypts(old(mode), f);
      if mode & 3 != ENC {
        Mirror();
      }
      return GOOD;
    }

    // One round from `x` to `y` with the key at word `at`.

    method FwdRound(y: array<bv32>, x: array<bv32>, at: nat)
      requires Valid() && y.Length == x.Length == 4 && y != x && y != eKey && at + 4 <= KS_LENGTH
      modifies y
      ensures ToState(y[..]) == AddRoundKey(MixColumns(ShiftRows(SubBytes(ToState(x[..])))), KeyAt(eKey[..], at))
    {
      hide FwdRnd, Bval0, Bval1, Bval2, Bval3, MixColumn, SBox, AddColumn;
      y[0] := FwdRnd(eKey[at], x[0], x[1], x[2], x[3]);
      y[1] := FwdRnd(eKey[at + 1], x[1], x[2], x[3], x[0]);
      y[2] := FwdRnd(eKey[at + 2], x[2], x[3], x[0], x[1]);
      y[3] := FwdRnd(eKey[at + 3], x[3], x[0], x[1], x[2]);
      ColOfFwdRnd(eKey[at], x[0], x[1], x[2], x[3]);
      ColOfFwdRnd(eKey[at + 1], x[1], x[2], x[3], x[0]);
      ColOfFwdRnd(eKey[at + 2], x[2], x[3], x[0], x[1]);
      ColOfFwdRnd(eKey[at + 3], x[3], x[0], x[1], x[2]);
    }

    method FwdLastRound(y: array<bv32>, x: array<bv32>, at: nat)
      requires Valid() && y.Length == x.Length == 4 && y != x && y != eKey && at + 4 <= KS_LENGTH
      modifies y
      ensures ToState(y[..]) == AddRoundKey(ShiftRows(SubBytes(ToState(x[..]))), KeyAt(eKey[..], at))
    {
      hide FwdLrnd, Bval0, Bval1, Bval2, Bval3, MixColumn, SBox, AddColumn;
      y[0] := FwdLrnd(eKey[at], x[0], x[1], x[2], x[3]);
      y[1] := FwdLrnd(eKey[at + 1], x[1], x[2], x[3], x[0]);
      y[2] := FwdLrnd(eKey[at + 2], x[2], x[3], x[0], x[1]);
      y[3] := FwdLrnd(eKey[at + 3], x[3], x[0], x[1], x[2]);
      ColOfFwdRnd(eKey[at], x[0], x[1], x[2], x[3]);
      ColOfFwdRnd(eKey[at + 1], x[1], x[2], x[3], x[0]);
      ColOfFwdRnd(eKey[at + 2], x[2], x[3], x[0], x[1]);
      ColOfFwdRnd(eKey[at + 3], x[3], x[0], x[1], x[2]);
    }

    method InvRound(y: array<bv32>, x: array<bv32>, at: nat)
      requires Valid() && y.Length == x.Length == 4 && y != x && y != dKey && at + 4 <= KS_LENGTH
      modifies y
      ensures ToState(y[..]) ==
              AddRoundKey(InvMixColumns(InvShiftRows(InvSubBytes(ToState(x[..])))), KeyAt(dKey[..], at))
    {
      hide InvRnd, Bval0, Bval1, Bval2, Bval3, InvMixColumn, InvSBox, AddColumn;
      y[0] := InvRnd(dKey[at], x[0], x[3], x[2], x[1]);
      y[1] := InvRnd(dKey[at + 1], x[1], x[0], x[3], x[2]);
      y[2] := InvRnd(dKey[at + 2], x[2], x[1], x[0], x[3]);
      y[3] := InvRnd(dKey[at + 3], x[3], x[2], x[1], x[0]);
      ColOfInvRnd(dKey[at], x[0], x[3], x[2], x[1]);
      ColOfInvRnd(dKey[at + 1], x[1], x[0], x[3], x[2]);
      ColOfInvRnd(dKey[at + 2], x[2], x[1], x[0], x[3]);
      ColOfInvRnd(dKey[at + 3], x[3], x[2], x[1], x[0]);
    }

    method InvLastRound(y: array<bv32>, x: array<bv32>, at: nat)
      requires Valid() && y.Length == x.Length == 4 && y != x && y != dKey && at + 4 <= KS_LENGTH
      modifies y
      ensures ToState(y[..]) == AddRoundKey(InvShiftRows(InvSubBytes(ToState(x[..]))), KeyAt(dKey[..], at))
    {
      hide InvLrnd, Bval0, Bval1, Bval2, Bval3, InvMixColumn, InvSBox, AddColumn;
      y[0] := InvLrnd(dKey[at], x[0], x[3], x[2], x[1]);
      y[1] := InvLrnd(dKey[at + 1], x[1], x[0], x[3], x[2]);
      y[2] := InvLrnd(dKey[at + 2], x[2], x[1], x[0], x[3]);
      y[3] := InvLrnd(dKey[at + 3], x[3], x[2], x[1], x[0]);
      ColOfInvRnd(dKey[at], x[0], x[3], x[2], x[1]);
      ColOfInvRnd(dKey[at + 1], x[1], x[0], x[3], x[2]);
      ColOfInvRnd(dKey[at + 2], x[2], x[1], x[0], x[3]);
      ColOfInvRnd(dKey[at + 3], x[3], x[2], x[1], x[0]);
    }

    /** Round `n` of an encryption that began with `start`. */
    method FwdStep(y: array<bv32>, x: array<bv32>, n: nat, ghost start: State)
      requires Valid() && y.Length == x.Length == 4 && y != x && y != eKey && 1 <= n <= 9
      requires ToState(x[..]) == Rounds(start, RoundKeys(eKey[..], 10), n - 1)
      modifies y
      ensures ToState(y[..]) == Rounds(start, RoundKeys(eKey[..], 10), n)
    {
      hide KeyAt, AddRoundKey, MixColumns, ShiftRows, SubBytes;
      FwdRound(y, x, 4 * n);
    }

    /** Round `n` of a decryption that began with `start`. */
    method InvStep(y: array<bv32>, x: array<bv32>, n: nat, ghost start: State)
      requires Valid() && y.Length == x.Length == 4 && y != x && y != dKey && 10 <= nRnd <= 14 && 1 <= n < nRnd
      requires ToState(x[..]) == EqInvRounds(start, RoundKeys(dKey[..], nRnd), n - 1)
      modifies y
      ensures ToState(y[..]) == EqInvRounds(start, RoundKeys(dKey[..], nRnd), n)
    {
      hide KeyAt, AddRoundKey, InvMixColumns, InvShiftRows, InvSubBytes;
      InvRound(y, x, 4 * n);
    }

    /** `state_in`: the block at `off`, with the first key of `k` added. */
    method StateIn(y: array<bv32>, blk: array<bv8>, off: nat, k: array<bv32>)
      requires y.Length == 4 && off + 16 <= blk.Length && k.Length >= 4 && y != k
      modifies y
      ensures ToState(y[..]) == AddRoundKey(BlockState(blk[off..off + 16]), KeyAt(k[..], 0))
    {
      hide Xor, Col, AddColumn;
      var c := 0;
      while c < 4
        invariant 0 <= c <= 4
        invariant forall j | 0 <= j < c :: Col(y[j]) == AddColumn(BytesCol(blk[off..off + 16], j), Col(k[j]))
      {
        var at := off + 4 * c;
        var word := Bytes2Word(blk[at], blk[at + 1], blk[at + 2], blk[at + 3]);
        ColOfBytes(blk[at], blk[at + 1], blk[at + 2], blk[at + 3]);
        ColOfXor(word, k[c]);
        y[c] := Xor(word, k[c]);
        c := c + 1;
      }
    }

    /** `state_out`: the state `x` goes to the block at `off`. */
    method StateOut(blk: array<bv8>, off: nat, x: array<bv32>)
      requires x.Length == 4 && off + 16 <= blk.Length
      modifies blk
      ensures blk[..off] == old(blk[..off]) && blk[off + 16..] == old(blk[off + 16..])
      ensures blk[off..off + 16] == StateBlock(ToState(x[..]))
    {
      hide Col, ColBytes;
      WordOut(blk, off, x[0]);
      WordOut(blk, off + 4, x[1]);
      WordOut(blk, off + 8, x[2]);
      WordOut(blk, off + 12, x[3]);
      ghost var b := blk[..];
      SplitBlock(b, off);
      assert b[off..off + 4] == ColBytes(Col(x[0])) && b[off + 4..off + 8] == ColBytes(Col(x[1]));
      assert b[off + 8..off + 12] == ColBytes(Col(x[2])) && b[off + 12..off + 16] == ColBytes(Col(x[3]));
    }

    /** `word_out`. */
    method WordOut(blk: array<bv8>, at: nat, word: bv32)
      requires at + 4 <= blk.Length
      modifies blk
      ensures blk[at..at + 4] == ColBytes(Col(word))
      ensures forall i | 0 <= i < blk.Length && !(at <= i < at + 4) :: blk[i] == old(blk[i])
    {
      hide Bval0, Bval1, Bval2, Bval3;
      blk[at], blk[at + 1], blk[at + 2], blk[at + 3] := Bval0(word), Bval1(word), Bval2(word), Bval3(word);
    }

    /** The nine full rounds of an encryption, `b0` and `b1` taking turns. */
    method FwdRounds(b1: array<bv32>, b0: array<bv32>, ghost start: State)
      requires Valid() && b1.Length == b0.Length == 4 && b0 != b1 && eKey !in {b0, b1}
      requires ToState(b0[..]) == Rounds(start, RoundKeys(eKey[..], 10), 0)
      modifies b0, b1
      ensures ToState(b1[..]) == Rounds(start, RoundKeys(eKey[..], 10), 9)
    {
      hide ToState, RoundKeys, Rounds;
      FwdStep(b1, b0, 1, start);
      FwdStep(b0, b1, 2, start);
      FwdStep(b1, b0, 3, start);
      FwdStep(b0, b1, 4, start);
      FwdStep(b1, b0, 5, start);
      FwdStep(b0, b1, 6, start);
      FwdStep(b1, b0, 7, start);
      FwdStep(b0, b1, 8, start);
      FwdStep(b1, b0, 9, start);
    }

    /** The rounds that keys of more than 16 bytes add, and the number of the next round. */
    method ExtraRounds(b1: array<bv32>, b0: array<bv32>, ghost start: State) returns (n: nat)
      requires Valid() && b1.Length == b0.Length == 4 && b0 != b1 && dKey !in {b0, b1}
      requires 10 <= nRnd <= 14
      requires ToState((if nRnd % 2 == 1 then b1 else b0)[..]) == EqInvRounds(start, RoundKeys(dKey[..], nRnd), 0)
      modifies b0, b1
      ensures n == nRnd - 9 && ToState(b0[..]) == EqInvRounds(start, RoundKeys(dKey[..], nRnd), n - 1)
    {
      hide ToState, RoundKeys, EqInvRounds;
      n := 1;
      if nRnd == 14 {
        InvStep(b1, b0, n, start);
        n := n + 1;
      }
      if nRnd >= 13 {
        InvStep(b0, b1, n, start);
        n := n + 1;
      }
      if nRnd >= 12 {
        InvStep(b1, b0, n, start);
        n := n + 1;
      }
      if nRnd >= 11 {
        InvStep(b0, b1, n, start);
        n := n + 1;
      }
    }

    /** Nine full rounds of a decryption, from round `n` on. */
    method InvRounds9(b1: array<bv32>, b0: array<bv32>, n: nat, ghost start: State)
      requires Valid() && b1.Length == b0.Length == 4 && b0 != b1 && dKey !in {b0, b1}
      requires 10 <= nRnd <= 14 && n == nRnd - 9
      requires ToState(b0[..]) == EqInvRounds(start, RoundKeys(dKey[..], nRnd), n - 1)
      modifies b0, b1
      ensures ToState(b1[..]) == EqInvRounds(start, RoundKeys(dKey[..], nRnd), n + 8)
    {
      hide ToState, RoundKeys, EqInvRounds;
      InvStep(b1, b0, n, start);
      InvStep(b0, b1, n + 1, start);
      InvStep(b1, b0, n + 2, start);
      InvStep(b0, b1, n + 3, start);
      InvStep(b1, b0, n + 4, start);
      InvStep(b0, b1, n + 5, start);
      InvStep(b1, b0, n + 6, start);
      InvStep(b0, b1, n + 7, start);
      InvStep(b1, b0, n + 8, start);
    }

    /** Encrypts the block of `inBlk` at `i` to the block of `outBlk` at `o`; the two may be the same
        array.  The rounds are always those of a 16-byte key.  With an odd number of rounds the
        first round reads a state that was never written. */
    method MyEncrypt(inBlk: array<bv8>, i: nat, outBlk: array<bv8>, o: nat) returns (ret: nat)
      requires Valid() && i + 16 <= inBlk.Length && o + 16 <= outBlk.Length
      modifies outBlk
      ensures mode & ENC == 0 ==> ret == BAD && outBlk[..] == old(outBlk[..])
      ensures mode & ENC != 0 ==>
        && ret == GOOD && outBlk[..o] == old(outBlk[..o]) && outBlk[o + 16..] == old(outBlk[o + 16..])
        && (nRnd % 2 == 0 ==> outBlk[o..o + 16] == Encrypted(old(inBlk[i..i + 16]), eKey[..]))
    {
      hide KeyAt, ToState, RoundKeys, Rounds, AddRoundKey, ShiftRows, SubBytes, Encrypted, BlockState, StateBlock;
      if mode & ENC == 0 {
        return BAD;
      }
      var b0, b1 := new bv32[4], new bv32[4];
      StateIn(if nRnd % 2 == 1 then b1 else b0, inBlk, i, eKey);
      ghost var start := ToState(b0[..]);
      RoundsStart(start, eKey[..]);
      FwdRounds(b1, b0, start);
      FwdLastRound(b0, b1, 40);
      CipherEnds(old(inBlk[i..i + 16]), eKey[..]);
      StateOut(outBlk, o, b0);
      return GOOD;
    }

    /** Decrypts in the same way, with as many rounds as the key asks for.  `d_key` holds the keys in
        the order of use. */
    method MyDecrypt(inBlk: array<bv8>, i: nat, outBlk: array<bv8>, o: nat) returns (ret: nat)
      requires Valid() && i + 16 <= inBlk.Length && o + 16 <= outBlk.Length
      requires mode & DEC != 0 ==> 10 <= nRnd <= 14
      modifies outBlk
      ensures mode & DEC == 0 ==> ret == BAD && outBlk[..] == old(outBlk[..])
      ensures mode & DEC != 0 ==>
        && ret == GOOD && outBlk[..o] == old(outBlk[..o]) && outBlk[o + 16..] == old(outBlk[o + 16..])
        && outBlk[o..o + 16] == Decrypted(old(inBlk[i..i + 16]), dKey[..], nRnd)
    {
      hide KeyAt, ToState, RoundKeys, EqInvRounds, AddRoundKey, InvShiftRows, InvSubBytes, Decrypted;
      hide BlockState, StateBlock;
      if mode & DEC == 0 {
        return BAD;
      }
      var b0, b1 := new bv32[4], new bv32[4];
      var first := if nRnd % 2 == 1 then b1 else b0;
      StateIn(first, inBlk, i, dKey);
      ghost var start := ToState(first[..]);
      EqInvRoundsStart(start, dKey[..], nRnd);
      var n := ExtraRounds(b1, b0, start);
      InvRounds9(b1, b0, n, start);
      InvLastRound(b0, b1, 4 * (n + 9));
      EqInvCipherEnds(old(inBlk[i..i + 16]), dKey[..], nRnd);
      StateOut(outBlk, o, b0);
      return GOOD;
    }
  }
}
