/** The example of appendix B of FIPS-197, step by step. */
module AesExample {
  import opened Gf
  import opened SBoxes
  import opened AesTab
  import opened Fips197
  import opened Aes
  import opened DoAes
  import opened Rounds

  // The round keys.

  /** Word `i` of a key expansion. */
  lemma {:induction false} ExpansionAt(key: seq<Column>, n: nat, i: nat)
    requires |key| >= 1 && i < n
    ensures i < |key| ==> KeyExpansion(key, n)[i] == key[i]
    ensures i >= |key| ==>
              var w := KeyExpansion(key, n);
              w[i] == AddColumn(w[i - |key|], ScheduleWord(w[i - 1], |key|, i))
    decreases n
  {
    hide AddColumn, ScheduleWord;
    if n > |key| && i < n - 1 {
      ExpansionAt(key, n - 1, i);
    }
  }

  /** Four more words, `x` being the round constant and `s` the S-box of the last word before. */
  lemma FourWords(w: seq<Column>, key: seq<Column>, k: nat, x: bv8, s: Column, t: Column)
    requires |key| == 4 && w == KeyExpansion(key, 44) && 1 <= k <= 10 && XPower(k - 1) == x
    requires SubColumn(Rotated(w[4 * k - 1])) == s && AddColumn(s, Column(x, 0, 0, 0)) == t
    ensures w[4 * k] == AddColumn(w[4 * k - 4], t) && w[4 * k + 1] == AddColumn(w[4 * k - 3], w[4 * k])
    ensures w[4 * k + 2] == AddColumn(w[4 * k - 2], w[4 * k + 1])
    ensures w[4 * k + 3] == AddColumn(w[4 * k - 1], w[4 * k + 2])
  {
    hide AddColumn, SubColumn, Rotated, XPower, KeyExpansion;
    ExpansionAt(key, 44, 4 * k);
    ExpansionAt(key, 44, 4 * k + 1);
    ExpansionAt(key, 44, 4 * k + 2);
    ExpansionAt(key, 44, 4 * k + 3);
  }

  lemma Key1(w: seq<Column>, key: seq<Column>)
    requires |key| == 4 && w == KeyExpansion(key, 44)
    requires w[0] == Column(0x2b, 0x7e, 0x15, 0x16) && w[1] == Column(0x28, 0xae, 0xd2, 0xa6)
    requires w[2] == Column(0xab, 0xf7, 0x15, 0x88) && w[3] == Column(0x09, 0xcf, 0x4f, 0x3c)
    ensures w[4] == Column(0xa0, 0xfa, 0xfe, 0x17) && w[5] == Column(0x88, 0x54, 0x2c, 0xb1)
    ensures w[6] == Column(0x23, 0xa3, 0x39, 0x39) && w[7] == Column(0x2a, 0x6c, 0x76, 0x05)
  {
    hide KeyExpansion;
    XIs(0);
    FourWords(w, key, 1, 0x01, Column(0x8a, 0x84, 0xeb, 0x01), Column(0x8b, 0x84, 0xeb, 0x01));
  }

  lemma Key2(w: seq<Column>, key: seq<Column>)
    requires |key| == 4 && w == KeyExpansion(key, 44)
    requires w[4] == Column(0xa0, 0xfa, 0xfe, 0x17) && w[5] == Column(0x88, 0x54, 0x2c, 0xb1)
    requires w[6] == Column(0x23, 0xa3, 0x39, 0x39) && w[7] == Column(0x2a, 0x6c, 0x76, 0x05)
    ensures w[8] == Column(0xf2, 0xc2, 0x95, 0xf2) && w[9] == Column(0x7a, 0x96, 0xb9, 0x43)
    ensures w[10] == Column(0x59, 0x35, 0x80, 0x7a) && w[11] == Column(0x73, 0x59, 0xf6, 0x7f)
  {
    hide KeyExpansion;
    XIs(1);
    FourWords(w, key, 2, 0x02, Column(0x50, 0x38, 0x6b, 0xe5), Column(0x52, 0x38, 0x6b, 0xe5));
  }

  lemma Key3(w: seq<Column>, key: seq<Column>)
    requires |key| == 4 && w == KeyExpansion(key, 44)
    requires w[8] == Column(0xf2, 0xc2, 0x95, 0xf2) && w[9] == Column(0x7a, 0x96, 0xb9, 0x43)
    requires w[10] == Column(0x59, 0x35, 0x80, 0x7a) && w[11] == Column(0x73, 0x59, 0xf6, 0x7f)
    ensures w[12] == Column(0x3d, 0x80, 0x47, 0x7d) && w[13] == Column(0x47, 0x16, 0xfe, 0x3e)
    ensures w[14] == Column(0x1e, 0x23, 0x7e, 0x44) && w[15] == Column(0x6d, 0x7a, 0x88, 0x3b)
  {
    hide KeyExpansion;
    XIs(2);
    FourWords(w, key, 3, 0x04, Column(0xcb, 0x42, 0xd2, 0x8f), Column(0xcf, 0x42, 0xd2, 0x8f));
  }

  lemma Key4(w: seq<Column>, key: seq<Column>)
    requires |key| == 4 && w == KeyExpansion(key, 44)
    requires w[12] == Column(0x3d, 0x80, 0x47, 0x7d) && w[13] == Column(0x47, 0x16, 0xfe, 0x3e)
    requires w[14] == Column(0x1e, 0x23, 0x7e, 0x44) && w[15] == Column(0x6d, 0x7a, 0x88, 0x3b)
    ensures w[16] == Column(0xef, 0x44, 0xa5, 0x41) && w[17] == Column(0xa8, 0x52, 0x5b, 0x7f)
    ensures w[18] == Column(0xb6, 0x71, 0x25, 0x3b) && w[19] == Column(0xdb, 0x0b, 0xad, 0x00)
  {
    hide KeyExpansion;
    XIs(3);
    FourWords(w, key, 4, 0x08, Column(0xda, 0xc4, 0xe2, 0x3c), Column(0xd2, 0xc4, 0xe2, 0x3c));
  }

  lemma Key5(w: seq<Column>, key: seq<Column>)
    requires |key| == 4 && w == KeyExpansion(key, 44)
    requires w[16] == Column(0xef, 0x44, 0xa5, 0x41) && w[17] == Column(0xa8, 0x52, 0x5b, 0x7f)
    requires w[18] == Column(0xb6, 0x71, 0x25, 0x3b) && w[19] == Column(0xdb, 0x0b, 0xad, 0x00)
    ensures w[20] == Column(0xd4, 0xd1, 0xc6, 0xf8) && w[21] == Column(0x7c, 0x83, 0x9d, 0x87)
    ensures w[22] == Column(0xca, 0xf2, 0xb8, 0xbc) && w[23] == Column(0x11, 0xf9, 0x15, 0xbc)
  {
    hide KeyExpansion;
    XIs(4);
    FourWords(w, key, 5, 0x10, Column(0x2b, 0x95, 0x63, 0xb9), Column(0x3b, 0x95, 0x63, 0xb9));
  }

  lemma Key6(w: seq<Column>, key: seq<Column>)
    requires |key| == 4 && w == KeyExpansion(key, 44)
    requires w[20] == Column(0xd4, 0xd1, 0xc6, 0xf8) && w[21] == Column(0x7c, 0x83, 0x9d, 0x87)
    requires w[22] == Column(0xca, 0xf2, 0xb8, 0xbc) && w[23] == Column(0x11, 0xf9, 0x15, 0xbc)
    ensures w[24] == Column(0x6d, 0x88, 0xa3, 0x7a) && w[25] == Column(0x11, 0x0b, 0x3e, 0xfd)
    ensures w[26] == Column(0xdb, 0xf9, 0x86, 0x41) && w[27] == Column(0xca, 0x00, 0x93, 0xfd)
  {
    hide KeyExpansion;
    XIs(5);
    FourWords(w, key, 6, 0x20, Column(0x99, 0x59, 0x65, 0x82), Column(0xb9, 0x59, 0x65, 0x82));
  }

  lemma Key7(w: seq<Column>, key: seq<Column>)
    requires |key| == 4 && w == KeyExpansion(key, 44)
    requires w[24] == Column(0x6d, 0x88, 0xa3, 0x7a) && w[25] == Column(0x11, 0x0b, 0x3e, 0xfd)
    requires w[26] == Column(0xdb, 0xf9, 0x86, 0x41) && w[27] == Column(0xca, 0x00, 0x93, 0xfd)
    ensures w[28] == Column(0x4e, 0x54, 0xf7, 0x0e) && w[29] == Column(0x5f, 0x5f, 0xc9, 0xf3)
    ensures w[30] == Column(0x84, 0xa6, 0x4f, 0xb2) && w[31] == Column(0x4e, 0xa6, 0xdc, 0x4f)
  {
    hide KeyExpansion;
    XIs(6);
    FourWords(w, key, 7, 0x40, Column(0x63, 0xdc, 0x54, 0x74), Column(0x23, 0xdc, 0x54, 0x74));
  }

  lemma Key8(w: seq<Column>, key: seq<Column>)
    requires |key| == 4 && w == KeyExpansion(key, 44)
    requires w[28] == Column(0x4e, 0x54, 0xf7, 0x0e) && w[29] == Column(0x5f, 0x5f, 0xc9, 0xf3)
    requires w[30] == Column(0x84, 0xa6, 0x4f, 0xb2) && w[31] == Column(0x4e, 0xa6, 0xdc, 0x4f)
    ensures w[32] == Column(0xea, 0xd2, 0x73, 0x21) && w[33] == Column(0xb5, 0x8d, 0xba, 0xd2)
    ensures w[34] == Column(0x31, 0x2b, 0xf5, 0x60) && w[35] == Column(0x7f, 0x8d, 0x29, 0x2f)
  {
    hide KeyExpansion;
    XIs(7);
    FourWords(w, key, 8, 0x80, Column(0x24, 0x86, 0x84, 0x2f), Column(0xa4, 0x86, 0x84, 0x2f));
  }

  lemma Key9(w: seq<Column>, key: seq<Column>)
    requires |key| == 4 && w == KeyExpansion(key, 44)
    requires w[32] == Column(0xea, 0xd2, 0x73, 0x21) && w[33] == Column(0xb5, 0x8d, 0xba, 0xd2)
    requires w[34] == Column(0x31, 0x2b, 0xf5, 0x60) && w[35] == Column(0x7f, 0x8d, 0x29, 0x2f)
    ensures w[36] == Column(0xac, 0x77, 0x66, 0xf3) && w[37] == Column(0x19, 0xfa, 0xdc, 0x21)
    ensures w[38] == Column(0x28, 0xd1, 0x29, 0x41) && w[39] == Column(0x57, 0x5c, 0x00, 0x6e)
  {
    hide KeyExpansion;
    XIs(8);
    FourWords(w, key, 9, 0x1b, Column(0x5d, 0xa5, 0x15, 0xd2), Column(0x46, 0xa5, 0x15, 0xd2));
  }

  lemma Key10(w: seq<Column>, key: seq<Column>)
    requires |key| == 4 && w == KeyExpansion(key, 44)
    requires w[36] == Column(0xac, 0x77, 0x66, 0xf3) && w[37] == Column(0x19, 0xfa, 0xdc, 0x21)
    requires w[38] == Column(0x28, 0xd1, 0x29, 0x41) && w[39] == Column(0x57, 0x5c, 0x00, 0x6e)
    ensures w[40] == Column(0xd0, 0x14, 0xf9, 0xa8) && w[41] == Column(0xc9, 0xee, 0x25, 0x89)
    ensures w[42] == Column(0xe1, 0x3f, 0x0c, 0xc8) && w[43] == Column(0xb6, 0x63, 0x0c, 0xa6)
  {
    hide KeyExpansion;
    XIs(9);
    FourWords(w, key, 10, 0x36, Column(0x4a, 0x63, 0x9f, 0x5b), Column(0x7c, 0x63, 0x9f, 0x5b));
  }

  lemma XIs(n: nat)
    requires n < 10
    ensures XPower(n) == [0x01, 0x02, 0x04, 0x08, 0x10, 0x20, 0x40, 0x80, 0x1b, 0x36][n]
  {
    hide XPower;
    RconIsXPower(n);
  }

  // The rounds.

  /** A column mix by doubling alone. */
  function Mixed(c: Column): Column {
    var (x0, x1, x2, x3) := (XTime(c.b0), XTime(c.b1), XTime(c.b2), XTime(c.b3));
    Column(Sum(x0, Add(c.b1, x1), c.b2, c.b3), Sum(c.b0, x1, Add(c.b2, x2), c.b3),
           Sum(c.b0, c.b1, x2, Add(c.b3, x3)), Sum(Add(c.b0, x0), c.b1, c.b2, x3))
  }

  lemma Mix(c: Column, m: Column)
    requires Mixed(c) == m
    ensures MixColumn(c) == m
  {
    hide Add, Sum, Mul, XTime;
    TwoAndThree(c.b0);
    TwoAndThree(c.b1);
    TwoAndThree(c.b2);
    TwoAndThree(c.b3);
  }

  lemma Sub(c: Column, d: Column)
    requires SBox(c.b0) == d.b0 && SBox(c.b1) == d.b1 && SBox(c.b2) == d.b2 && SBox(c.b3) == d.b3
    ensures SubColumn(c) == d
  {
    hide SBox;
  }

  lemma Plus(c: Column, k: Column, d: Column)
    requires Add(c.b0, k.b0) == d.b0 && Add(c.b1, k.b1) == d.b1 && Add(c.b2, k.b2) == d.b2 && Add(c.b3, k.b3) == d.b3
    ensures AddColumn(c, k) == d
  {
    hide Add;
  }

  lemma RoundIs(s: State, k: State)
    ensures Round(s, k) == AddRoundKey(MixColumns(ShiftRows(SubBytes(s))), k)
  {
    hide AddRoundKey, MixColumns, ShiftRows, SubBytes;
  }

  lemma Round1(t: State, w: seq<State>)
    requires AreKeys(w)
    requires Fips197.Rounds(t, w, 0) ==
             State(Column(0x19, 0x3d, 0xe3, 0xbe), Column(0xa0, 0xf4, 0xe2, 0x2b),
                   Column(0x9a, 0xc6, 0x8d, 0x2a), Column(0xe9, 0xf8, 0x48, 0x08))
    ensures Fips197.Rounds(t, w, 1) ==
            State(Column(0xa4, 0x9c, 0x7f, 0xf2), Column(0x68, 0x9f, 0x35, 0x2b),
                  Column(0x6b, 0x5b, 0xea, 0x43), Column(0x02, 0x6a, 0x50, 0x49))
  {
    hide Fips197.Rounds, Round, SubColumn, MixColumn, AddColumn;
    Sub(Column(0x19, 0x3d, 0xe3, 0xbe), Column(0xd4, 0x27, 0x11, 0xae));
    Sub(Column(0xa0, 0xf4, 0xe2, 0x2b), Column(0xe0, 0xbf, 0x98, 0xf1));
    Sub(Column(0x9a, 0xc6, 0x8d, 0x2a), Column(0xb8, 0xb4, 0x5d, 0xe5));
    Sub(Column(0xe9, 0xf8, 0x48, 0x08), Column(0x1e, 0x41, 0x52, 0x30));
    Mix(Column(0xd4, 0xbf, 0x5d, 0x30), Column(0x04, 0x66, 0x81, 0xe5));
    Mix(Column(0xe0, 0xb4, 0x52, 0xae), Column(0xe0, 0xcb, 0x19, 0x9a));
    Mix(Column(0xb8, 0x41, 0x11, 0xf1), Column(0x48, 0xf8, 0xd3, 0x7a));
    Mix(Column(0x1e, 0x27, 0x98, 0xe5), Column(0x28, 0x06, 0x26, 0x4c));
    Plus(Column(0x04, 0x66, 0x81, 0xe5), Column(0xa0, 0xfa, 0xfe, 0x17), Column(0xa4, 0x9c, 0x7f, 0xf2));
    Plus(Column(0xe0, 0xcb, 0x19, 0x9a), Column(0x88, 0x54, 0x2c, 0xb1), Column(0x68, 0x9f, 0x35, 0x2b));
    Plus(Column(0x48, 0xf8, 0xd3, 0x7a), Column(0x23, 0xa3, 0x39, 0x39), Column(0x6b, 0x5b, 0xea, 0x43));
    Plus(Column(0x28, 0x06, 0x26, 0x4c), Column(0x2a, 0x6c, 0x76, 0x05), Column(0x02, 0x6a, 0x50, 0x49));
    OneMoreRound(t, w, 0);
    RoundIs(Fips197.Rounds(t, w, 0), w[1]);
  }

  lemma Round2(t: State, w: seq<State>)
    requires AreKeys(w)
    requires Fips197.Rounds(t, w, 1) ==
             State(Column(0xa4, 0x9c, 0x7f, 0xf2), Column(0x68, 0x9f, 0x35, 0x2b),
                   Column(0x6b, 0x5b, 0xea, 0x43), Column(0x02, 0x6a, 0x50, 0x49))
    ensures Fips197.Rounds(t, w, 2) ==
            State(Column(0xaa, 0x8f, 0x5f, 0x03), Column(0x61, 0xdd, 0xe3, 0xef),
                  Column(0x82, 0xd2, 0x4a, 0xd2), Column(0x68, 0x32, 0x46, 0x9a))
  {
    hide Fips197.Rounds, Round, SubColumn, MixColumn, AddColumn;
    Sub(Column(0xa4, 0x9c, 0x7f, 0xf2), Column(0x49, 0xde, 0xd2, 0x89));
    Sub(Column(0x68, 0x9f, 0x35, 0x2b), Column(0x45, 0xdb, 0x96, 0xf1));
    Sub(Column(0x6b, 0x5b, 0xea, 0x43), Column(0x7f, 0x39, 0x87, 0x1a));
    Sub(Column(0x02, 0x6a, 0x50, 0x49), Column(0x77, 0x02, 0x53, 0x3b));
    Mix(Column(0x49, 0xdb, 0x87, 0x3b), Column(0x58, 0x4d, 0xca, 0xf1));
    Mix(Column(0x45, 0x39, 0x53, 0x89), Column(0x1b, 0x4b, 0x5a, 0xac));
    Mix(Column(0x7f, 0x02, 0xd2, 0xf1), Column(0xdb, 0xe7, 0xca, 0xa8));
    Mix(Column(0x77, 0xde, 0x96, 0x1a), Column(0x1b, 0x6b, 0xb0, 0xe5));
    Plus(Column(0x58, 0x4d, 0xca, 0xf1), Column(0xf2, 0xc2, 0x95, 0xf2), Column(0xaa, 0x8f, 0x5f, 0x03));
    Plus(Column(0x1b, 0x4b, 0x5a, 0xac), Column(0x7a, 0x96, 0xb9, 0x43), Column(0x61, 0xdd, 0xe3, 0xef));
    Plus(Column(0xdb, 0xe7, 0xca, 0xa8), Column(0x59, 0x35, 0x80, 0x7a), Column(0x82, 0xd2, 0x4a, 0xd2));
    Plus(Column(0x1b, 0x6b, 0xb0, 0xe5), Column(0x73, 0x59, 0xf6, 0x7f), Column(0x68, 0x32, 0x46, 0x9a));
    OneMoreRound(t, w, 1);
    RoundIs(Fips197.Rounds(t, w, 1), w[2]);
  }

  lemma Round3(t: State, w: seq<State>)
    requires AreKeys(w)
    requires Fips197.Rounds(t, w, 2) ==
             State(Column(0xaa, 0x8f, 0x5f, 0x03), Column(0x61, 0xdd, 0xe3, 0xef),
                   Column(0x82, 0xd2, 0x4a, 0xd2), Column(0x68, 0x32, 0x46, 0x9a))
    ensures Fips197.Rounds(t, w, 3) ==
            State(Column(0x48, 0x6c, 0x4e, 0xee), Column(0x67, 0x1d, 0x9d, 0x0d),
                  Column(0x4d, 0xe3, 0xb1, 0x38), Column(0xd6, 0x5f, 0x58, 0xe7))
  {
    hide Fips197.Rounds, Round, SubColumn, MixColumn, AddColumn;
    Sub(Column(0xaa, 0x8f, 0x5f, 0x03), Column(0xac, 0x73, 0xcf, 0x7b));
    Sub(Column(0x61, 0xdd, 0xe3, 0xef), Column(0xef, 0xc1, 0x11, 0xdf));
    Sub(Column(0x82, 0xd2, 0x4a, 0xd2), Column(0x13, 0xb5, 0xd6, 0xb5));
    Sub(Column(0x68, 0x32, 0x46, 0x9a), Column(0x45, 0x23, 0x5a, 0xb8));
    Mix(Column(0xac, 0xc1, 0xd6, 0xb8), Column(0x75, 0xec, 0x09, 0x93));
    Mix(Column(0xef, 0xb5, 0x5a, 0x7b), Column(0x20, 0x0b, 0x63, 0x33));
    Mix(Column(0x13, 0x23, 0xcf, 0xdf), Column(0x53, 0xc0, 0xcf, 0x7c));
    Mix(Column(0x45, 0x73, 0x11, 0xb5), Column(0xbb, 0x25, 0xd0, 0xdc));
    Plus(Column(0x75, 0xec, 0x09, 0x93), Column(0x3d, 0x80, 0x47, 0x7d), Column(0x48, 0x6c, 0x4e, 0xee));
    Plus(Column(0x20, 0x0b, 0x63, 0x33), Column(0x47, 0x16, 0xfe, 0x3e), Column(0x67, 0x1d, 0x9d, 0x0d));
    Plus(Column(0x53, 0xc0, 0xcf, 0x7c), Column(0x1e, 0x23, 0x7e, 0x44), Column(0x4d, 0xe3, 0xb1, 0x38));
    Plus(Column(0xbb, 0x25, 0xd0, 0xdc), Column(0x6d, 0x7a, 0x88, 0x3b), Column(0xd6, 0x5f, 0x58, 0xe7));
    OneMoreRound(t, w, 2);
    RoundIs(Fips197.Rounds(t, w, 2), w[3]);
  }

  lemma Round4(t: State, w: seq<State>)
    requires AreKeys(w)
    requires Fips197.Rounds(t, w, 3) ==
             State(Column(0x48, 0x6c, 0x4e, 0xee), Column(0x67, 0x1d, 0x9d, 0x0d),
                   Column(0x4d, 0xe3, 0xb1, 0x38), Column(0xd6, 0x5f, 0x58, 0xe7))
    ensures Fips197.Rounds(t, w, 4) ==
            State(Column(0xe0, 0x92, 0x7f, 0xe8), Column(0xc8, 0x63, 0x63, 0xc0),
                  Column(0xd9, 0xb1, 0x35, 0x50), Column(0x85, 0xb8, 0xbe, 0x01))
  {
    hide Fips197.Rounds, Round, SubColumn, MixColumn, AddColumn;
    Sub(Column(0x48, 0x6c, 0x4e, 0xee), Column(0x52, 0x50, 0x2f, 0x28));
    Sub(Column(0x67, 0x1d, 0x9d, 0x0d), Column(0x85, 0xa4, 0x5e, 0xd7));
    Sub(Column(0x4d, 0xe3, 0xb1, 0x38), Column(0xe3, 0x11, 0xc8, 0x07));
    Sub(Column(0xd6, 0x5f, 0x58, 0xe7), Column(0xf6, 0xcf, 0x6a, 0x94));
    Mix(Column(0x52, 0xa4, 0xc8, 0x94), Column(0x0f, 0xd6, 0xda, 0xa9));
    Mix(Column(0x85, 0x11, 0x6a, 0x28), Column(0x60, 0x31, 0x38, 0xbf));
    Mix(Column(0xe3, 0xcf, 0x2f, 0xd7), Column(0x6f, 0xc0, 0x10, 0x6b));
    Mix(Column(0xf6, 0x50, 0x5e, 0x07), Column(0x5e, 0xb3, 0x13, 0x01));
    Plus(Column(0x0f, 0xd6, 0xda, 0xa9), Column(0xef, 0x44, 0xa5, 0x41), Column(0xe0, 0x92, 0x7f, 0xe8));
    Plus(Column(0x60, 0x31, 0x38, 0xbf), Column(0xa8, 0x52, 0x5b, 0x7f), Column(0xc8, 0x63, 0x63, 0xc0));
    Plus(Column(0x6f, 0xc0, 0x10, 0x6b), Column(0xb6, 0x71, 0x25, 0x3b), Column(0xd9, 0xb1, 0x35, 0x50));
    Plus(Column(0x5e, 0xb3, 0x13, 0x01), Column(0xdb, 0x0b, 0xad, 0x00), Column(0x85, 0xb8, 0xbe, 0x01));
    OneMoreRound(t, w, 3);
    RoundIs(Fips197.Rounds(t, w, 3), w[4]);
  }

  lemma Round5(t: State, w: seq<State>)
    requires AreKeys(w)
    requires Fips197.Rounds(t, w, 4) ==
             State(Column(0xe0, 0x92, 0x7f, 0xe8), Column(0xc8, 0x63, 0x63, 0xc0),
                   Column(0xd9, 0xb1, 0x35, 0x50), Column(0x85, 0xb8, 0xbe, 0x01))
    ensures Fips197.Rounds(t, w, 5) ==
            State(Column(0xf1, 0x00, 0x6f, 0x55), Column(0xc1, 0x92, 0x4c, 0xef),
                  Column(0x7c, 0xc8, 0x8b, 0x32), Column(0x5d, 0xb5, 0xd5, 0x0c))
  {
    hide Fips197.Rounds, Round, SubColumn, MixColumn, AddColumn;
    Sub(Column(0xe0, 0x92, 0x7f, 0xe8), Column(0xe1, 0x4f, 0xd2, 0x9b));
    Sub(Column(0xc8, 0x63, 0x63, 0xc0), Column(0xe8, 0xfb, 0xfb, 0xba));
    Sub(Column(0xd9, 0xb1, 0x35, 0x50), Column(0x35, 0xc8, 0x96, 0x53));
    Sub(Column(0x85, 0xb8, 0xbe, 0x01), Column(0x97, 0x6c, 0xae, 0x7c));
    Mix(Column(0xe1, 0xfb, 0x96, 0x7c), Column(0x25, 0xd1, 0xa9, 0xad));
    Mix(Column(0xe8, 0xc8, 0xae, 0x9b), Column(0xbd, 0x11, 0xd1, 0x68));
    Mix(Column(0x35, 0x6c, 0xd2, 0xba), Column(0xb6, 0x3a, 0x33, 0x8e));
    Mix(Column(0x97, 0x4f, 0xfb, 0x53), Column(0x4c, 0x4c, 0xc0, 0xb0));
    Plus(Column(0x25, 0xd1, 0xa9, 0xad), Column(0xd4, 0xd1, 0xc6, 0xf8), Column(0xf1, 0x00, 0x6f, 0x55));
    Plus(Column(0xbd, 0x11, 0xd1, 0x68), Column(0x7c, 0x83, 0x9d, 0x87), Column(0xc1, 0x92, 0x4c, 0xef));
    Plus(Column(0xb6, 0x3a, 0x33, 0x8e), Column(0xca, 0xf2, 0xb8, 0xbc), Column(0x7c, 0xc8, 0x8b, 0x32));
    Plus(Column(0x4c, 0x4c, 0xc0, 0xb0), Column(0x11, 0xf9, 0x15, 0xbc), Column(0x5d, 0xb5, 0xd5, 0x0c));
    OneMoreRound(t, w, 4);
    RoundIs(Fips197.Rounds(t, w, 4), w[5]);
  }

  lemma Round6(t: State, w: seq<State>)
    requires AreKeys(w)
    requires Fips197.Rounds(t, w, 5) ==
             State(Column(0xf1, 0x00, 0x6f, 0x55), Column(0xc1, 0x92, 0x4c, 0xef),
                   Column(0x7c, 0xc8, 0x8b, 0x32), Column(0x5d, 0xb5, 0xd5, 0x0c))
    ensures Fips197.Rounds(t, w, 6) ==
            State(Column(0x26, 0x0e, 0x2e, 0x17), Column(0x3d, 0x41, 0xb7, 0x7d),
                  Column(0xe8, 0x64, 0x72, 0xa9), Column(0xfd, 0xd2, 0x8b, 0x25))
  {
    hide Fips197.Rounds, Round, SubColumn, MixColumn, AddColumn;
    Sub(Column(0xf1, 0x00, 0x6f, 0x55), Column(0xa1, 0x63, 0xa8, 0xfc));
    Sub(Column(0xc1, 0x92, 0x4c, 0xef), Column(0x78, 0x4f, 0x29, 0xdf));
    Sub(Column(0x7c, 0xc8, 0x8b, 0x32), Column(0x10, 0xe8, 0x3d, 0x23));
    Sub(Column(0x5d, 0xb5, 0xd5, 0x0c), Column(0x4c, 0xd5, 0x03, 0xfe));
    Mix(Column(0xa1, 0x4f, 0x3d, 0xfe), Column(0x4b, 0x86, 0x8d, 0x6d));
    Mix(Column(0x78, 0xe8, 0x03, 0xfc), Column(0x2c, 0x4a, 0x89, 0x80));
    Mix(Column(0x10, 0xd5, 0xa8, 0xdf), Column(0x33, 0x9d, 0xf4, 0xe8));
    Mix(Column(0x4c, 0x63, 0x29, 0x23), Column(0x37, 0xd2, 0x18, 0xd8));
    Plus(Column(0x4b, 0x86, 0x8d, 0x6d), Column(0x6d, 0x88, 0xa3, 0x7a), Column(0x26, 0x0e, 0x2e, 0x17));
    Plus(Column(0x2c, 0x4a, 0x89, 0x80), Column(0x11, 0x0b, 0x3e, 0xfd), Column(0x3d, 0x41, 0xb7, 0x7d));
    Plus(Column(0x33, 0x9d, 0xf4, 0xe8), Column(0xdb, 0xf9, 0x86, 0x41), Column(0xe8, 0x64, 0x72, 0xa9));
    Plus(Column(0x37, 0xd2, 0x18, 0xd8), Column(0xca, 0x00, 0x93, 0xfd), Column(0xfd, 0xd2, 0x8b, 0x25));
    OneMoreRound(t, w, 5);
    RoundIs(Fips197.Rounds(t, w, 5), w[6]);
  }

  lemma Round7(t: State, w: seq<State>)
    requires AreKeys(w)
    requires Fips197.Rounds(t, w, 6) ==
             State(Column(0x26, 0x0e, 0x2e, 0x17), Column(0x3d, 0x41, 0xb7, 0x7d),
                   Column(0xe8, 0x64, 0x72, 0xa9), Column(0xfd, 0xd2, 0x8b, 0x25))
    ensures Fips197.Rounds(t, w, 7) ==
            State(Column(0x5a, 0x41, 0x42, 0xb1), Column(0x19, 0x49, 0xdc, 0x1f),
                  Column(0xa3, 0xe0, 0x19, 0x65), Column(0x7a, 0x8c, 0x04, 0x0c))
  {
    hide Fips197.Rounds, Round, SubColumn, MixColumn, AddColumn;
    Sub(Column(0x26, 0x0e, 0x2e, 0x17), Column(0xf7, 0xab, 0x31, 0xf0));
    Sub(Column(0x3d, 0x41, 0xb7, 0x7d), Column(0x27, 0x83, 0xa9, 0xff));
    Sub(Column(0xe8, 0x64, 0x72, 0xa9), Column(0x9b, 0x43, 0x40, 0xd3));
    Sub(Column(0xfd, 0xd2, 0x8b, 0x25), Column(0x54, 0xb5, 0x3d, 0x3f));
    Mix(Column(0xf7, 0x83, 0x40, 0x3f), Column(0x14, 0x15, 0xb5, 0xbf));
    Mix(Column(0x27, 0x43, 0x3d, 0xf0), Column(0x46, 0x16, 0x15, 0xec));
    Mix(Column(0x9b, 0xb5, 0x31, 0xff), Column(0x27, 0x46, 0x56, 0xd7));
    Mix(Column(0x54, 0xab, 0xa9, 0xd3), Column(0x34, 0x2a, 0xd8, 0x43));
    Plus(Column(0x14, 0x15, 0xb5, 0xbf), Column(0x4e, 0x54, 0xf7, 0x0e), Column(0x5a, 0x41, 0x42, 0xb1));
    Plus(Column(0x46, 0x16, 0x15, 0xec), Column(0x5f, 0x5f, 0xc9, 0xf3), Column(0x19, 0x49, 0xdc, 0x1f));
    Plus(Column(0x27, 0x46, 0x56, 0xd7), Column(0x84, 0xa6, 0x4f, 0xb2), Column(0xa3, 0xe0, 0x19, 0x65));
    Plus(Column(0x34, 0x2a, 0xd8, 0x43), Column(0x4e, 0xa6, 0xdc, 0x4f), Column(0x7a, 0x8c, 0x04, 0x0c));
    OneMoreRound(t, w, 6);
    RoundIs(Fips197.Rounds(t, w, 6), w[7]);
  }

  lemma Round8(t: State, w: seq<State>)
    requires AreKeys(w)
    requires Fips197.Rounds(t, w, 7) ==
             State(Column(0x5a, 0x41, 0x42, 0xb1), Column(0x19, 0x49, 0xdc, 0x1f),
                   Column(0xa3, 0xe0, 0x19, 0x65), Column(0x7a, 0x8c, 0x04, 0x0c))
    ensures Fips197.Rounds(t, w, 8) ==
            State(Column(0xea, 0x83, 0x5c, 0xf0), Column(0x04, 0x45, 0x33, 0x2d),
                  Column(0x65, 0x5d, 0x98, 0xad), Column(0x85, 0x96, 0xb0, 0xc5))
  {
    hide Fips197.Rounds, Round, SubColumn, MixColumn, AddColumn;
    Sub(Column(0x5a, 0x41, 0x42, 0xb1), Column(0xbe, 0x83, 0x2c, 0xc8));
    Sub(Column(0x19, 0x49, 0xdc, 0x1f), Column(0xd4, 0x3b, 0x86, 0xc0));
    Sub(Column(0xa3, 0xe0, 0x19, 0x65), Column(0x0a, 0xe1, 0xd4, 0x4d));
    Sub(Column(0x7a, 0x8c, 0x04, 0x0c), Column(0xda, 0x64, 0xf2, 0xfe));
    Mix(Column(0xbe, 0x3b, 0xd4, 0xfe), Column(0x00, 0x51, 0x2f, 0xd1));
    Mix(Column(0xd4, 0xe1, 0xf2, 0xc8), Column(0xb1, 0xc8, 0x89, 0xff));
    Mix(Column(0x0a, 0x64, 0x2c, 0xc0), Column(0x54, 0x76, 0x6d, 0xcd));
    Mix(Column(0xda, 0x83, 0x86, 0x4d), Column(0xfa, 0x1b, 0x99, 0xea));
    Plus(Column(0x00, 0x51, 0x2f, 0xd1), Column(0xea, 0xd2, 0x73, 0x21), Column(0xea, 0x83, 0x5c, 0xf0));
    Plus(Column(0xb1, 0xc8, 0x89, 0xff), Column(0xb5, 0x8d, 0xba, 0xd2), Column(0x04, 0x45, 0x33, 0x2d));
    Plus(Column(0x54, 0x76, 0x6d, 0xcd), Column(0x31, 0x2b, 0xf5, 0x60), Column(0x65, 0x5d, 0x98, 0xad));
    Plus(Column(0xfa, 0x1b, 0x99, 0xea), Column(0x7f, 0x8d, 0x29, 0x2f), Column(0x85, 0x96, 0xb0, 0xc5));
    OneMoreRound(t, w, 7);
    RoundIs(Fips197.Rounds(t, w, 7), w[8]);
  }

  lemma Round9(t: State, w: seq<State>)
    requires AreKeys(w)
    requires Fips197.Rounds(t, w, 8) ==
             State(Column(0xea, 0x83, 0x5c, 0xf0), Column(0x04, 0x45, 0x33, 0x2d),
                   Column(0x65, 0x5d, 0x98, 0xad), Column(0x85, 0x96, 0xb0, 0xc5))
    ensures Fips197.Rounds(t, w, 9) ==
            State(Column(0xeb, 0x40, 0xf2, 0x1e), Column(0x59, 0x2e, 0x38, 0x84),
                  Column(0x8b, 0xa1, 0x13, 0xe7), Column(0x1b, 0xc3, 0x42, 0xd2))
  {
    hide Fips197.Rounds, Round, SubColumn, MixColumn, AddColumn;
    Sub(Column(0xea, 0x83, 0x5c, 0xf0), Column(0x87, 0xec, 0x4a, 0x8c));
    Sub(Column(0x04, 0x45, 0x33, 0x2d), Column(0xf2, 0x6e, 0xc3, 0xd8));
    Sub(Column(0x65, 0x5d, 0x98, 0xad), Column(0x4d, 0x4c, 0x46, 0x95));
    Sub(Column(0x85, 0x96, 0xb0, 0xc5), Column(0x97, 0x90, 0xe7, 0xa6));
    Mix(Column(0x87, 0x6e, 0x46, 0xa6), Column(0x47, 0x37, 0x94, 0xed));
    Mix(Column(0xf2, 0x4c, 0xe7, 0x8c), Column(0x40, 0xd4, 0xe4, 0xa5));
    Mix(Column(0x4d, 0x90, 0x4a, 0xd8), Column(0xa3, 0x70, 0x3a, 0xa6));
    Mix(Column(0x97, 0xec, 0xc3, 0x95), Column(0x4c, 0x9f, 0x42, 0xbc));
    Plus(Column(0x47, 0x37, 0x94, 0xed), Column(0xac, 0x77, 0x66, 0xf3), Column(0xeb, 0x40, 0xf2, 0x1e));
    Plus(Column(0x40, 0xd4, 0xe4, 0xa5), Column(0x19, 0xfa, 0xdc, 0x21), Column(0x59, 0x2e, 0x38, 0x84));
    Plus(Column(0xa3, 0x70, 0x3a, 0xa6), Column(0x28, 0xd1, 0x29, 0x41), Column(0x8b, 0xa1, 0x13, 0xe7));
    Plus(Column(0x4c, 0x9f, 0x42, 0xbc), Column(0x57, 0x5c, 0x00, 0x6e), Column(0x1b, 0xc3, 0x42, 0xd2));
    OneMoreRound(t, w, 8);
    RoundIs(Fips197.Rounds(t, w, 8), w[9]);
  }

  /** All of it. */
  lemma EncryptedExample(key: Key, b: Block)
    requires key == [0x2b, 0x7e, 0x15, 0x16, 0x28, 0xae, 0xd2, 0xa6,
                     0xab, 0xf7, 0x15, 0x88, 0x09, 0xcf, 0x4f, 0x3c]
    requires b == [0x32, 0x43, 0xf6, 0xa8, 0x88, 0x5a, 0x30, 0x8d,
                   0x31, 0x31, 0x98, 0xa2, 0xe0, 0x37, 0x07, 0x34]
    ensures AesEncrypt(key, b) ==
            [0x39, 0x25, 0x84, 0x1d, 0x02, 0xdc, 0x09, 0xfb,
             0xdc, 0x11, 0x85, 0x97, 0x19, 0x6a, 0x0b, 0x32]
  {
    hide KeyExpansion, Cipher, Schedule;
    var w := Schedule(key);
    KeysOfExample(key, w);
    var s := BlockState(b);
    assert s == State(Column(0x32, 0x43, 0xf6, 0xa8), Column(0x88, 0x5a, 0x30, 0x8d),
                      Column(0x31, 0x31, 0x98, 0xa2), Column(0xe0, 0x37, 0x07, 0x34));
    CipherOfExample(s, w);
  }

  /** The round keys of the example. */
  predicate AreKeys(w: seq<State>) {
    && |w| == 11
    && w[0] == State(Column(0x2b, 0x7e, 0x15, 0x16), Column(0x28, 0xae, 0xd2, 0xa6),
                    Column(0xab, 0xf7, 0x15, 0x88), Column(0x09, 0xcf, 0x4f, 0x3c))
    && w[1] == State(Column(0xa0, 0xfa, 0xfe, 0x17), Column(0x88, 0x54, 0x2c, 0xb1),
                    Column(0x23, 0xa3, 0x39, 0x39), Column(0x2a, 0x6c, 0x76, 0x05))
    && w[2] == State(Column(0xf2, 0xc2, 0x95, 0xf2), Column(0x7a, 0x96, 0xb9, 0x43),
                    Column(0x59, 0x35, 0x80, 0x7a), Column(0x73, 0x59, 0xf6, 0x7f))
    && w[3] == State(Column(0x3d, 0x80, 0x47, 0x7d), Column(0x47, 0x16, 0xfe, 0x3e),
                    Column(0x1e, 0x23, 0x7e, 0x44), Column(0x6d, 0x7a, 0x88, 0x3b))
    && w[4] == State(Column(0xef, 0x44, 0xa5, 0x41), Column(0xa8, 0x52, 0x5b, 0x7f),
                    Column(0xb6, 0x71, 0x25, 0x3b), Column(0xdb, 0x0b, 0xad, 0x00))
    && w[5] == State(Column(0xd4, 0xd1, 0xc6, 0xf8), Column(0x7c, 0x83, 0x9d, 0x87),
                    Column(0xca, 0xf2, 0xb8, 0xbc), Column(0x11, 0xf9, 0x15, 0xbc))
    && w[6] == State(Column(0x6d, 0x88, 0xa3, 0x7a), Column(0x11, 0x0b, 0x3e, 0xfd),
                    Column(0xdb, 0xf9, 0x86, 0x41), Column(0xca, 0x00, 0x93, 0xfd))
    && w[7] == State(Column(0x4e, 0x54, 0xf7, 0x0e), Column(0x5f, 0x5f, 0xc9, 0xf3),
                    Column(0x84, 0xa6, 0x4f, 0xb2), Column(0x4e, 0xa6, 0xdc, 0x4f))
    && w[8] == State(Column(0xea, 0xd2, 0x73, 0x21), Column(0xb5, 0x8d, 0xba, 0xd2),
                    Column(0x31, 0x2b, 0xf5, 0x60), Column(0x7f, 0x8d, 0x29, 0x2f))
    && w[9] == State(Column(0xac, 0x77, 0x66, 0xf3), Column(0x19, 0xfa, 0xdc, 0x21),
                    Column(0x28, 0xd1, 0x29, 0x41), Column(0x57, 0x5c, 0x00, 0x6e))
    && w[10] == State(Column(0xd0, 0x14, 0xf9, 0xa8), Column(0xc9, 0xee, 0x25, 0x89),
                     Column(0xe1, 0x3f, 0x0c, 0xc8), Column(0xb6, 0x63, 0x0c, 0xa6))
  }

  lemma KeysOfExample(key: Key, w: seq<State>)
    requires key == [0x2b, 0x7e, 0x15, 0x16, 0x28, 0xae, 0xd2, 0xa6,
                     0xab, 0xf7, 0x15, 0x88, 0x09, 0xcf, 0x4f, 0x3c] && w == Schedule(key)
    ensures AreKeys(w)
  {
    hide KeyExpansion;
    var k := KeyWords(key);
    var e := KeyExpansion(k, 44);
    ExpansionAt(k, 44, 0);
    ExpansionAt(k, 44, 1);
    ExpansionAt(k, 44, 2);
    ExpansionAt(k, 44, 3);
    Key1(e, k);
    Key2(e, k);
    Key3(e, k);
    Key4(e, k);
    Key5(e, k);
    Key6(e, k);
    Key7(e, k);
    Key8(e, k);
    Key9(e, k);
    Key10(e, k);
  }

  lemma CipherOfExample(s: State, w: seq<State>)
    requires AreKeys(w)
    requires s == State(Column(0x32, 0x43, 0xf6, 0xa8), Column(0x88, 0x5a, 0x30, 0x8d),
                        Column(0x31, 0x31, 0x98, 0xa2), Column(0xe0, 0x37, 0x07, 0x34))
    ensures Cipher(s, w) == State(Column(0x39, 0x25, 0x84, 0x1d), Column(0x02, 0xdc, 0x09, 0xfb),
                                  Column(0xdc, 0x11, 0x85, 0x97), Column(0x19, 0x6a, 0x0b, 0x32))
  {
    hide Fips197.Rounds, AddRoundKey, Last, AreKeys;
    assert |w| == 11 by { KeyCount(w); }
    Start(s, w);
    var t := AddRoundKey(s, w[0]);
    RoundsStart(t, w);
    Round1(t, w);
    Round2(t, w);
    Round3(t, w);
    Round4(t, w);
    Round5(t, w);
    Round6(t, w);
    Round7(t, w);
    Round8(t, w);
    Round9(t, w);
    End(w);
    CipherIs(s, w);
  }

  lemma CipherIs(s: State, w: seq<State>)
    requires |w| == 11
    ensures Cipher(s, w) == Last(Fips197.Rounds(AddRoundKey(s, w[0]), w, 9), w[10])
  {
    hide Fips197.Rounds, AddRoundKey, ShiftRows, SubBytes;
  }

  lemma Start(s: State, w: seq<State>)
    requires AreKeys(w)
    requires s == State(Column(0x32, 0x43, 0xf6, 0xa8), Column(0x88, 0x5a, 0x30, 0x8d),
                        Column(0x31, 0x31, 0x98, 0xa2), Column(0xe0, 0x37, 0x07, 0x34))
    ensures AddRoundKey(s, w[0]) == State(Column(0x19, 0x3d, 0xe3, 0xbe), Column(0xa0, 0xf4, 0xe2, 0x2b),
                                         Column(0x9a, 0xc6, 0x8d, 0x2a), Column(0xe9, 0xf8, 0x48, 0x08))
  {
    Plus(Column(0x32, 0x43, 0xf6, 0xa8), Column(0x2b, 0x7e, 0x15, 0x16), Column(0x19, 0x3d, 0xe3, 0xbe));
    Plus(Column(0x88, 0x5a, 0x30, 0x8d), Column(0x28, 0xae, 0xd2, 0xa6), Column(0xa0, 0xf4, 0xe2, 0x2b));
    Plus(Column(0x31, 0x31, 0x98, 0xa2), Column(0xab, 0xf7, 0x15, 0x88), Column(0x9a, 0xc6, 0x8d, 0x2a));
    Plus(Column(0xe0, 0x37, 0x07, 0x34), Column(0x09, 0xcf, 0x4f, 0x3c), Column(0xe9, 0xf8, 0x48, 0x08));
  }

  lemma End(w: seq<State>)
    requires AreKeys(w)
    ensures Last(State(Column(0xeb, 0x40, 0xf2, 0x1e), Column(0x59, 0x2e, 0x38, 0x84),
                       Column(0x8b, 0xa1, 0x13, 0xe7), Column(0x1b, 0xc3, 0x42, 0xd2)), w[10]) ==
            State(Column(0x39, 0x25, 0x84, 0x1d), Column(0x02, 0xdc, 0x09, 0xfb),
                  Column(0xdc, 0x11, 0x85, 0x97), Column(0x19, 0x6a, 0x0b, 0x32))
  {
    hide SubColumn, AddColumn;
    Sub(Column(0xeb, 0x40, 0xf2, 0x1e), Column(0xe9, 0x09, 0x89, 0x72));
    Sub(Column(0x59, 0x2e, 0x38, 0x84), Column(0xcb, 0x31, 0x07, 0x5f));
    Sub(Column(0x8b, 0xa1, 0x13, 0xe7), Column(0x3d, 0x32, 0x7d, 0x94));
    Sub(Column(0x1b, 0xc3, 0x42, 0xd2), Column(0xaf, 0x2e, 0x2c, 0xb5));
    Plus(Column(0xe9, 0x31, 0x7d, 0xb5), Column(0xd0, 0x14, 0xf9, 0xa8), Column(0x39, 0x25, 0x84, 0x1d));
    Plus(Column(0xcb, 0x32, 0x2c, 0x72), Column(0xc9, 0xee, 0x25, 0x89), Column(0x02, 0xdc, 0x09, 0xfb));
    Plus(Column(0x3d, 0x2e, 0x89, 0x5f), Column(0xe1, 0x3f, 0x0c, 0xc8), Column(0xdc, 0x11, 0x85, 0x97));
    Plus(Column(0xaf, 0x09, 0x07, 0x94), Column(0xb6, 0x63, 0x0c, 0xa6), Column(0x19, 0x6a, 0x0b, 0x32));
  }

  lemma KeyCount(w: seq<State>)
    requires AreKeys(w)
    ensures |w| == 11
  {
  }

  lemma RoundsStart(s: State, w: seq<State>)
    requires |w| >= 1
    ensures Fips197.Rounds(s, w, 0) == s
  {
  }
}
