/** The digest of the message `abc`, computed step by step: a known answer of section A.5 of RFC 1321. */
module Md5Abc {
  import opened Md5
  import opened Md5Transform
  import opened Md5Words

  /** The words of the one block of the padded message. */
  predicate IsAbc(x: seq<Word>) {
    |x| == 16 && x[0] == 0x80636261 && x[14] == 0x18 && forall k | 0 < k < 16 && k != 14 :: x[k] == 0
  }

  /** Step `i` with its intermediate results. */
  lemma Go(x: seq<Word>, i: nat, r0: Regs, r: Regs, f: Word, p: Word, q: Word, sum: Word, turned: Word, u: Word)
    requires |x| == 16 && i < 64 && Steps(r0, x, 0, i) == r
    requires Auxiliary(i / 16, r.b, r.c, r.d) == f && Plus(f, x[WordIndex(i)]) == p && Plus(p, T(i)) == q
    requires Plus(r.a, q) == sum && RotateLeft(sum, Shift(i)) == turned && Plus(turned, r.b) == u
    ensures Steps(r0, x, 0, i + 1) == Regs(r.d, u, r.b, r.c)
  {
    hide Auxiliary, Plus, T, Shift, RotateLeft, WordIndex;
  }

  lemma Steps0(x: seq<Word>, r: Regs)
    requires IsAbc(x) && Steps(r, x, 0, 0) == Regs(0x67452301, 0xefcdab89, 0x98badcfe, 0x10325476)
    ensures Steps(r, x, 0, 4) == Regs(0xd6d117b4, 0x7ad956f2, 0x2f6fbd72, 0x344a8432)
  {
    hide Steps;
    Go(x, 0, r, Regs(0x67452301, 0xefcdab89, 0x98badcfe, 0x10325476),
       0x98badcfe, 0x191e3f5f, 0xf088e3d7, 0x57ce06d8, 0xe7036c2b, 0xd6d117b4);
    Go(x, 1, r, Regs(0x10325476, 0xd6d117b4, 0xefcdab89, 0x98badcfe),
       0xceebcbca, 0xceebcbca, 0xb7b38320, 0xc7e5d796, 0x5d796c7e, 0x344a8432);
    Go(x, 2, r, Regs(0x98badcfe, 0x344a8432, 0xd6d117b4, 0xefcdab89),
       0xdfc52fb9, 0xdfc52fb9, 0x03e5a094, 0x9ca07d92, 0xfb253940, 0x2f6fbd72);
    Go(x, 3, r, Regs(0xefcdab89, 0x2f6fbd72, 0x344a8432, 0xd6d117b4),
       0xf4da86b6, 0xf4da86b6, 0xb69855a4, 0xa666012d, 0x4b699980, 0x7ad956f2);
  }

  lemma Steps4(x: seq<Word>, r: Regs)
    requires IsAbc(x) && Steps(r, x, 0, 4) == Regs(0xd6d117b4, 0x7ad956f2, 0x2f6fbd72, 0x344a8432)
    ensures Steps(r, x, 0, 8) == Regs(0xc73741ef, 0x928d99f6, 0x207dc67b, 0x8bac3051)
  {
    hide Steps;
    Go(x, 4, r, Regs(0xd6d117b4, 0x7ad956f2, 0x2f6fbd72, 0x344a8432),
       0x2e4b9472, 0x2e4b9472, 0x23c7a421, 0xfa98bbd5, 0x4c5deafd, 0xc73741ef);
    Go(x, 5, r, Regs(0x344a8432, 0xc73741ef, 0x7ad956f2, 0x2f6fbd72),
       0x6a59fcf2, 0x6a59fcf2, 0xb1e1c31c, 0xe62c474e, 0xc474ee62, 0x8bac3051);
    Go(x, 6, r, Regs(0x2f6fbd72, 0x8bac3051, 0xc73741ef, 0x7ad956f2),
       0xf37546e3, 0xf37546e3, 0x9ba58cf6, 0xcb154a68, 0x94d1962a, 0x207dc67b);
    Go(x, 7, r, Regs(0x7ad956f2, 0x207dc67b, 0x8bac3051, 0xc73741ef),
       0xc72e01d5, 0xc72e01d5, 0xc47496d6, 0x3f4dedc8, 0x720fd37b, 0x928d99f6);
  }

  lemma Steps8(x: seq<Word>, r: Regs)
    requires IsAbc(x) && Steps(r, x, 0, 8) == Regs(0xc73741ef, 0x928d99f6, 0x207dc67b, 0x8bac3051)
    ensures Steps(r, x, 0, 12) == Regs(0x854b3712, 0x5ed49596, 0x3020401c, 0x74e2f284)
  {
    hide Steps;
    Go(x, 8, r, Regs(0xc73741ef, 0x928d99f6, 0x207dc67b, 0x8bac3051),
       0x092da073, 0x092da073, 0x72ae394b, 0x39e57b3a, 0xf2bd9d1c, 0x854b3712);
    Go(x, 9, r, Regs(0x8bac3051, 0x854b3712, 0x928d99f6, 0x207dc67b),
       0xa03dd17b, 0xa03dd17b, 0x2b82c92a, 0xb72ef97b, 0xef97bb72, 0x74e2f284);
    Go(x, 10, r, Regs(0x207dc67b, 0x74e2f284, 0x854b3712, 0x928d99f6),
       0x864f3b72, 0x864f3b72, 0x864e9723, 0xa6cc5d9e, 0xbb3d4d98, 0x3020401c);
    Go(x, 11, r, Regs(0x928d99f6, 0x3020401c, 0x74e2f284, 0x854b3712),
       0xb56b7706, 0xb56b7706, 0x3ec84ec4, 0xd155e8ba, 0x2eb4557a, 0x5ed49596);
  }

  lemma Steps12(x: seq<Word>, r: Regs)
    requires IsAbc(x) && Steps(r, x, 0, 12) == Regs(0x854b3712, 0x5ed49596, 0x3020401c, 0x74e2f284)
    ensures Steps(r, x, 0, 16) == Regs(0xdda9b9a6, 0x72aff2e0, 0xe396856b, 0xa1051895)
  {
    hide Steps;
    Go(x, 12, r, Regs(0x854b3712, 0x5ed49596, 0x3020401c, 0x74e2f284),
       0x30226214, 0x30226214, 0x9bb27336, 0x20fdaa48, 0x7ed52410, 0xdda9b9a6);
    Go(x, 13, r, Regs(0x74e2f284, 0xdda9b9a6, 0x5ed49596, 0x3020401c),
       0x7c80d19e, 0x7c80d19e, 0x7a194331, 0xeefc35b5, 0xc35b5eef, 0xa1051895);
    Go(x, 14, r, Regs(0x3020401c, 0xa1051895, 0xdda9b9a6, 0x5ed49596),
       0xdfd19d86, 0xdfd19d9e, 0x864ae12c, 0xb66b2148, 0x42916cd6, 0xe396856b);
    Go(x, 15, r, Regs(0x5ed49596, 0xe396856b, 0xa1051895, 0xdda9b9a6),
       0xbd2d3885, 0xbd2d3885, 0x06e140a6, 0x65b5d63c, 0x8f196d75, 0x72aff2e0);
  }

  lemma Steps16(x: seq<Word>, r: Regs)
    requires IsAbc(x) && Steps(r, x, 0, 16) == Regs(0xdda9b9a6, 0x72aff2e0, 0xe396856b, 0xa1051895)
    ensures Steps(r, x, 0, 20) == Regs(0x3e9e9126, 0xb5b204e4, 0xe25e1652, 0x4a1d804e)
  {
    hide Steps;
    Go(x, 16, r, Regs(0xdda9b9a6, 0x72aff2e0, 0xe396856b, 0xa1051895),
       0x629795ea, 0x629795ea, 0x58b5bb4c, 0x365f74f2, 0xcbee9e46, 0x3e9e9126);
    Go(x, 17, r, Regs(0xa1051895, 0x3e9e9126, 0x72aff2e0, 0xe396856b),
       0x32bff3a2, 0x32bff3a2, 0xf300a6e2, 0x9405bf77, 0x0b7eef28, 0x4a1d804e);
    Go(x, 18, r, Regs(0xe396856b, 0x4a1d804e, 0x3e9e9126, 0x72aff2e0),
       0x4e1d8146, 0x4e1d8146, 0x747bdb97, 0x58126102, 0x98409604, 0xe25e1652);
    Go(x, 19, r, Regs(0x72aff2e0, 0xe25e1652, 0x4a1d804e, 0x3e9e9126),
       0x621f104a, 0xe28272ab, 0xcc393a55, 0x3ee92d35, 0xd353ee92, 0xb5b204e4);
  }

  lemma Steps20(x: seq<Word>, r: Regs)
    requires IsAbc(x) && Steps(r, x, 0, 20) == Regs(0x3e9e9126, 0xb5b204e4, 0xe25e1652, 0x4a1d804e)
    ensures Steps(r, x, 0, 24) == Regs(0x59a8ffda, 0x47092c07, 0xabfc7920, 0x6d002f1e)
  {
    hide Steps;
    Go(x, 20, r, Regs(0x3e9e9126, 0xb5b204e4, 0xe25e1652, 0x4a1d804e),
       0xa0521654, 0xa0521654, 0x768126b1, 0xb51fb7d7, 0xa3f6faf6, 0x59a8ffda);
    Go(x, 21, r, Regs(0x4a1d804e, 0x59a8ffda, 0xb5b204e4, 0xe25e1652),
       0x55a816f6, 0x55a816f6, 0x57ec2b49, 0xa209ab97, 0x13572f44, 0x6d002f1e);
    Go(x, 22, r, Regs(0xe25e1652, 0x6d002f1e, 0x59a8ffda, 0xb5b204e4),
       0x6d08ff1e, 0x6d08ff1e, 0x45aae59f, 0x2808fbf1, 0x3efc4a02, 0xabfc7920);
    Go(x, 23, r, Regs(0xb5b204e4, 0xabfc7920, 0x6d002f1e, 0x59a8ffda),
       0x2da87904, 0x2da87904, 0x157c74cc, 0xcb2e79b0, 0x9b0cb2e7, 0x47092c07);
  }

  lemma Steps24(x: seq<Word>, r: Regs)
    requires IsAbc(x) && Steps(r, x, 0, 24) == Regs(0x59a8ffda, 0x47092c07, 0xabfc7920, 0x6d002f1e)
    ensures Steps(r, x, 0, 28) == Regs(0xb7f268cf, 0x786acb8f, 0xfe1623b1, 0x09388eff)
  {
    hide Steps;
    Go(x, 24, r, Regs(0x59a8ffda, 0x47092c07, 0xabfc7920, 0x6d002f1e),
       0xc7fc7c26, 0xc7fc7c26, 0xe9de4a0c, 0x438749e6, 0x70e93cc8, 0xb7f268cf);
    Go(x, 25, r, Regs(0x6d002f1e, 0xb7f268cf, 0x47092c07, 0xabfc7920),
       0xe7f16c07, 0xe7f16c1f, 0xab2873f5, 0x1828a313, 0x51462630, 0x09388eff);
    Go(x, 26, r, Regs(0xabfc7920, 0x09388eff, 0xb7f268cf, 0x47092c07),
       0xb1fa4ccf, 0xb1fa4ccf, 0xa6cf5a56, 0x52cbd376, 0xf4dd94b2, 0xfe1623b1);
    Go(x, 27, r, Regs(0x47092c07, 0xfe1623b1, 0x09388eff, 0xb7f268cf),
       0xbe1aa6b1, 0xbe1aa6b1, 0x0374bb9e, 0x4a7de7a5, 0x7a54a7de, 0x786acb8f);
  }

  lemma Steps28(x: seq<Word>, r: Regs)
    requires IsAbc(x) && Steps(r, x, 0, 28) == Regs(0xb7f268cf, 0x786acb8f, 0xfe1623b1, 0x09388eff)
    ensures Steps(r, x, 0, 32) == Regs(0x790a77fb, 0x726342d3, 0xa62884aa, 0x9f47e4f8)
  {
    hide Steps;
    Go(x, 28, r, Regs(0xb7f268cf, 0x786acb8f, 0xfe1623b1, 0x09388eff),
       0xfe2eab8f, 0xfe2eab8f, 0xa8129494, 0x6004fd63, 0x009fac6c, 0x790a77fb);
    Go(x, 29, r, Regs(0x09388eff, 0x790a77fb, 0x786acb8f, 0xfe1623b1),
       0x786aebbf, 0x786aebbf, 0x755a8fb7, 0x7e931eb6, 0x263d6cfd, 0x9f47e4f8);
    Go(x, 30, r, Regs(0xfe1623b1, 0x9f47e4f8, 0x790a77fb, 0x786acb8f),
       0x1942f4f8, 0x1942f4f8, 0x80b1f7d1, 0x7ec81b82, 0x06e09fb2, 0xa62884aa);
    Go(x, 31, r, Regs(0x786acb8f, 0xa62884aa, 0x9f47e4f8, 0x790a77fb),
       0xa64d84aa, 0xa64d84aa, 0x3377d134, 0xabe29cc3, 0xcc3abe29, 0x726342d3);
  }

  lemma Steps32(x: seq<Word>, r: Regs)
    requires IsAbc(x) && Steps(r, x, 0, 32) == Regs(0x790a77fb, 0x726342d3, 0xa62884aa, 0x9f47e4f8)
    ensures Steps(r, x, 0, 36) == Regs(0xb3707ebf, 0x3b0875c7, 0x8d212ff5, 0x60127b2e)
  {
    hide Steps;
    Go(x, 32, r, Regs(0x790a77fb, 0x726342d3, 0xa62884aa, 0x9f47e4f8),
       0x4b0c2281, 0x4b0c2281, 0x4b065bc3, 0xc410d3be, 0x410d3bec, 0xb3707ebf);
    Go(x, 33, r, Regs(0x9f47e4f8, 0xb3707ebf, 0x726342d3, 0xa62884aa),
       0x673bb8c6, 0x673bb8c6, 0xeeadaf47, 0x8df5943f, 0xaca1fc6f, 0x60127b2e);
    Go(x, 34, r, Regs(0xa62884aa, 0x60127b2e, 0xb3707ebf, 0x726342d3),
       0xa1014742, 0xa1014742, 0x0e9ea864, 0xb4c72d0e, 0x2d0eb4c7, 0x8d212ff5);
    Go(x, 35, r, Regs(0x726342d3, 0x8d212ff5, 0x60127b2e, 0xb3707ebf),
       0x5e432a64, 0x5e432a7c, 0x5c286288, 0xce8ba55b, 0xade745d2, 0x3b0875c7);
  }

  lemma Steps36(x: seq<Word>, r: Regs)
    requires IsAbc(x) && Steps(r, x, 0, 36) == Regs(0xb3707ebf, 0x3b0875c7, 0x8d212ff5, 0x60127b2e)
    ensures Steps(r, x, 0, 40) == Regs(0x21b117b9, 0x5a2f5ea5, 0x3575227e, 0x6e7429d5)
  {
    hide Steps;
    Go(x, 36, r, Regs(0xb3707ebf, 0x3b0875c7, 0x8d212ff5, 0x60127b2e),
       0xd63b211c, 0xd63b211c, 0x7afa0b60, 0x2e6a8a1f, 0xe6a8a1f2, 0x21b117b9);
    Go(x, 37, r, Regs(0x60127b2e, 0x21b117b9, 0x3b0875c7, 0x8d212ff5),
       0x97984d8b, 0x97984d8b, 0xe3771d34, 0x43899862, 0x4cc3121c, 0x6e7429d5);
    Go(x, 38, r, Regs(0x8d212ff5, 0x6e7429d5, 0x21b117b9, 0x3b0875c7),
       0x74cd4bab, 0x74cd4bab, 0x6b88970b, 0xf8a9c700, 0xc700f8a9, 0x3575227e);
    Go(x, 39, r, Regs(0x3b0875c7, 0x3575227e, 0x6e7429d5, 0x21b117b9),
       0x7ab01c12, 0x7ab01c12, 0x396fd882, 0x74784e49, 0x24ba3c27, 0x5a2f5ea5);
  }

  lemma Steps40(x: seq<Word>, r: Regs)
    requires IsAbc(x) && Steps(r, x, 0, 40) == Regs(0x21b117b9, 0x5a2f5ea5, 0x3575227e, 0x6e7429d5)
    ensures Steps(r, x, 0, 44) == Regs(0x11de1779, 0x4c6124f4, 0x31c465ca, 0xfadcaa38)
  {
    hide Steps;
    Go(x, 40, r, Regs(0x21b117b9, 0x5a2f5ea5, 0x3575227e, 0x6e7429d5),
       0x012e550e, 0x012e550e, 0x29c9d3d4, 0x4b7aeb8d, 0xb7aeb8d4, 0x11de1779);
    Go(x, 41, r, Regs(0x6e7429d5, 0x11de1779, 0x5a2f5ea5, 0x3575227e),
       0x7e846ba2, 0xfee7ce03, 0xe988f5fd, 0x57fd1fd2, 0xe8fe92bf, 0xfadcaa38);
    Go(x, 42, r, Regs(0x3575227e, 0xfadcaa38, 0x11de1779, 0x5a2f5ea5),
       0xb12de3e4, 0xb12de3e4, 0x861d1469, 0xbb9236e7, 0x36e7bb92, 0x31c465ca);
    Go(x, 43, r, Regs(0x5a2f5ea5, 0x31c465ca, 0xfadcaa38, 0x11de1779),
       0xdac6d88b, 0xdac6d88b, 0xdf4ef590, 0x397e5435, 0x1a9cbf2a, 0x4c6124f4);
  }

  lemma Steps44(x: seq<Word>, r: Regs)
    requires IsAbc(x) && Steps(r, x, 0, 44) == Regs(0x11de1779, 0x4c6124f4, 0x31c465ca, 0xfadcaa38)
    ensures Steps(r, x, 0, 48) == Regs(0x7f2e507b, 0x7beb9700, 0x8fae6399, 0x99d9679d)
  {
    hide Steps;
    Go(x, 44, r, Regs(0x11de1779, 0x4c6124f4, 0x31c465ca, 0xfadcaa38),
       0x8779eb06, 0x8779eb06, 0x614ebb3f, 0x732cd2b8, 0x32cd2b87, 0x7f2e507b);
    Go(x, 45, r, Regs(0xfadcaa38, 0x7f2e507b, 0x4c6124f4, 0x31c465ca),
       0x028b1145, 0x028b1145, 0xe966ab2a, 0xe4435562, 0x1aab1722, 0x99d9679d);
    Go(x, 46, r, Regs(0x31c465ca, 0x99d9679d, 0x7f2e507b, 0x4c6124f4),
       0xaa961312, 0xaa961312, 0xca38900a, 0xfbfcf5d4, 0xf5d4fbfc, 0x8fae6399);
    Go(x, 47, r, Regs(0x4c6124f4, 0x8fae6399, 0x99d9679d, 0x7f2e507b),
       0x6959547f, 0x6959547f, 0x2e05aae4, 0x7a66cfd8, 0xec3d3367, 0x7beb9700);
  }

  lemma Steps48(x: seq<Word>, r: Regs)
    requires IsAbc(x) && Steps(r, x, 0, 48) == Regs(0x7f2e507b, 0x7beb9700, 0x8fae6399, 0x99d9679d)
    ensures Steps(r, x, 0, 52) == Regs(0x7b201df8, 0x8bf025c4, 0xb298cefd, 0xf4e8e96e)
  {
    hide Steps;
    Go(x, 48, r, Regs(0x7f2e507b, 0x7beb9700, 0x8fae6399, 0x99d9679d),
       0xf041fcfb, 0x70a55f5c, 0x64ce81a0, 0xe3fcd21b, 0xff3486f8, 0x7b201df8);
    Go(x, 49, r, Regs(0x99d9679d, 0x7b201df8, 0x7beb9700, 0x8fae6399),
       0x009a0afe, 0x009a0afe, 0x43c50a95, 0xdd9e7232, 0x79c8cb76, 0xf4e8e96e);
    Go(x, 50, r, Regs(0x8fae6399, 0xf4e8e96e, 0x7b201df8, 0x7beb9700),
       0x8fdcf407, 0x8fdcf41f, 0x3b7117c6, 0xcb1f7b5f, 0xbdafe58f, 0xb298cefd);
    Go(x, 51, r, Regs(0x7beb9700, 0xb298cefd, 0xf4e8e96e, 0x7b201df8),
       0x42370791, 0x42370791, 0x3ecaa7ca, 0xbab63eca, 0xd95756c7, 0x8bf025c4);
  }

  lemma Steps52(x: seq<Word>, r: Regs)
    requires IsAbc(x) && Steps(r, x, 0, 52) == Regs(0x7b201df8, 0x8bf025c4, 0xb298cefd, 0xf4e8e96e)
    ensures Steps(r, x, 0, 56) == Regs(0x06cc5e8a, 0x3bfa2c27, 0x7d632dd0, 0x5b0d97aa)
  {
    hide Steps;
    Go(x, 52, r, Regs(0x7b201df8, 0x8bf025c4, 0xb298cefd, 0xf4e8e96e),
       0x396ff928, 0x396ff928, 0x9ecb52eb, 0x19eb70e3, 0x7adc38c6, 0x06cc5e8a);
    Go(x, 53, r, Regs(0xf4e8e96e, 0x06cc5e8a, 0x8bf025c4, 0xb298cefd),
       0xc41f5a4e, 0xc41f5a4e, 0x532c26e0, 0x4815104e, 0x54413920, 0x5b0d97aa);
    Go(x, 54, r, Regs(0xb298cefd, 0x5b0d97aa, 0x06cc5e8a, 0x8bf025c4),
       0x79c38131, 0x79c38131, 0x79b375ae, 0x2c4c44ab, 0x22559626, 0x7d632dd0);
    Go(x, 55, r, Regs(0x8bf025c4, 0x7d632dd0, 0x5b0d97aa, 0x06cc5e8a),
       0xa67e3a5f, 0xa67e3a5f, 0x2c029830, 0xb7f2bdf4, 0xbe96fe57, 0x3bfa2c27);
  }

  lemma Steps56(x: seq<Word>, r: Regs)
    requires IsAbc(x) && Steps(r, x, 0, 56) == Regs(0x06cc5e8a, 0x3bfa2c27, 0x7d632dd0, 0x5b0d97aa)
    ensures Steps(r, x, 0, 60) == Regs(0x7f81cc35, 0x7327d604, 0x4f9dbe3f, 0x094454ab)
  {
    hide Steps;
    Go(x, 56, r, Regs(0x06cc5e8a, 0x3bfa2c27, 0x7d632dd0, 0x5b0d97aa),
       0xc29941a7, 0xc29941a7, 0x3241bff6, 0x390e1e80, 0x4387a00e, 0x7f81cc35);
    Go(x, 57, r, Regs(0x5b0d97aa, 0x7f81cc35, 0x3bfa2c27, 0x7d632dd0),
       0xc467f218, 0xc467f218, 0xc294d8f8, 0x1da270a2, 0x89c28876, 0x094454ab);
    Go(x, 58, r, Regs(0x7d632dd0, 0x094454ab, 0x7f81cc35, 0x3bfa2c27),
       0xb2c41bce, 0xb2c41bce, 0x55c55ee2, 0xd3288cb2, 0x46596994, 0x4f9dbe3f);
    Go(x, 59, r, Regs(0x3bfa2c27, 0x4f9dbe3f, 0x094454ab, 0x7f81cc35),
       0xc6bbeb54, 0xc6bbeb54, 0x14c3fcf5, 0x50be291c, 0x238a17c5, 0x7327d604);
  }

  lemma Steps60(x: seq<Word>, r: Regs)
    requires IsAbc(x) && Steps(r, x, 0, 60) == Regs(0x7f81cc35, 0x7327d604, 0x4f9dbe3f, 0x094454ab)
    ensures Steps(r, x, 0, 64) == Regs(0x310ade8f, 0xc08226b3, 0xe484b9d8, 0x624d8cb2)
  {
    hide Steps;
    Go(x, 60, r, Regs(0x7f81cc35, 0x7327d604, 0x4f9dbe3f, 0x094454ab),
       0xb822416b, 0xb822416b, 0xaf75bfed, 0x2ef78c22, 0xbde3088b, 0x310ade8f);
    Go(x, 61, r, Regs(0x094454ab, 0x310ade8f, 0x7327d604, 0x4f9dbe3f),
       0xc24d09cb, 0xc24d09cb, 0x7f87fc00, 0x88cc50ab, 0x3142ae23, 0x624d8cb2);
    Go(x, 62, r, Regs(0x4f9dbe3f, 0x624d8cb2, 0x310ade8f, 0x7327d604),
       0xdfd77374, 0xdfd77374, 0x0aaf462f, 0x5a4d046e, 0x82372d26, 0xe484b9d8);
    Go(x, 63, r, Regs(0x7327d604, 0xe484b9d8, 0x624d8cb2, 0x310ade8f),
       0x8cb8354a, 0x8cb8354a, 0x783f08db, 0xeb66dedf, 0xdbfd6cdb, 0xc08226b3);
  }

  lemma AllSteps(x: seq<Word>, r: Regs)
    requires IsAbc(x) && r == Regs(0x67452301, 0xefcdab89, 0x98badcfe, 0x10325476)
    ensures Steps(r, x, 0, 64) == Regs(0x310ade8f, 0xc08226b3, 0xe484b9d8, 0x624d8cb2)
  {
    assert Steps(r, x, 0, 0) == r;
    hide Steps;
    Steps0(x, r);
    Steps4(x, r);
    Steps8(x, r);
    Steps12(x, r);
    Steps16(x, r);
    Steps20(x, r);
    Steps24(x, r);
    Steps28(x, r);
    Steps32(x, r);
    Steps36(x, r);
    Steps40(x, r);
    Steps44(x, r);
    Steps48(x, r);
    Steps52(x, r);
    Steps56(x, r);
    Steps60(x, r);
  }

  /** The padded message as one block. */
  lemma BlockOfAbc(m: seq<Byte>, block: seq<Byte>)
    requires m == [97, 98, 99] && block == m + Padding(3)
    ensures |block| == 64 && IsAbc(Decoded(block))
  {
    hide LengthBytes, DecodeWord;
    LengthOfAbc(LengthBytes(24));
    assert block[..4] == [97, 98, 99, 0x80] && block[56..] == LengthBytes(24);
    var x := Decoded(block);
    assert block[0] == block[..4][0] && block[1] == block[..4][1];
    assert block[2] == block[..4][2] && block[3] == block[..4][3];
    WordOf(block, 0, 97, 98, 99, 0x80, 0x80636261);
    forall k | 56 <= k < 64 ensures block[k] == LengthBytes(24)[k - 56] {
      assert block[k] == block[56..][k - 56];
    }
    WordOf(block, 14, 24, 0, 0, 0, 24);
    forall k | 0 < k < 16 && k != 14 ensures x[k] == 0 {
      WordOf(block, k, 0, 0, 0, 0, 0);
    }
  }

  lemma LengthOfAbc(b: seq<Byte>)
    requires b == LengthBytes(24)
    ensures |b| == 8 && b[0] == 24 && forall k | 0 < k < 8 :: b[k] == 0
  {
    hide LengthBytes, Encoded, EncodeWord;
    LengthOfWords(24, 0, 24);
    EncodedTwo(24, 0);
    BytesOfAbc();
  }

  lemma BytesOfAbc()
    ensures EncodeWord(24) == [24, 0, 0, 0] && EncodeWord(0) == [0, 0, 0, 0]
  {
  }

  lemma EncodedTwo(v: Word, w: Word)
    ensures Encoded([v, w]) == EncodeWord(v) + EncodeWord(w)
  {
    hide EncodeWord;
    var ws := [v, w];
    assert ws[..1] == [v] && ws[..1][..0] == [] && Encoded([]) == [];
    assert Encoded(ws[..1]) == [] + EncodeWord(v);
  }

  lemma WordOf(b: seq<Byte>, i: nat, b0: Byte, b1: Byte, b2: Byte, b3: Byte, w: Word)
    requires 4 * i + 4 <= |b| && b[4 * i] == b0 && b[4 * i + 1] == b1 && b[4 * i + 2] == b2 && b[4 * i + 3] == b3
    requires Assembled(b0, b1, b2, b3) == w
    ensures DecodeWord(b, i) == w
  {
    hide Assembled;
  }

  /** The chaining value after the one block. */
  lemma ChainOfAbc(block: seq<Byte>, s: Chain)
    requires |block| == 64 && IsAbc(Decoded(block)) && s == Compressed(block)
    ensures s[0] == 0x98500190 && s[1] == 0xb04fd23c && s[2] == 0x7d3f96d6 && s[3] == 0x727fe128
  {
    hide Steps, Decoded, Transform, Plus;
    var iv: Chain := IV();
    assert block[..0] == [] && block[..64] == block && block[0..64] == block;
    CompressedOfNone();
    CompressedStep(block, 0);
    assert s == Transform(iv, block);
    StartIs(iv);
    Transformed(iv, block);
  }

  lemma StartIs(s: Chain)
    requires s == IV()
    ensures s[0] == 0x67452301 && s[1] == 0xefcdab89 && s[2] == 0x98badcfe && s[3] == 0x10325476
  {
  }

  lemma Transformed(s: Chain, block: Block)
    requires IsAbc(Decoded(block))
    requires s[0] == 0x67452301 && s[1] == 0xefcdab89 && s[2] == 0x98badcfe && s[3] == 0x10325476
    ensures var t := Transform(s, block);
            t[0] == 0x98500190 && t[1] == 0xb04fd23c && t[2] == 0x7d3f96d6 && t[3] == 0x727fe128
  {
    hide Steps, Decoded;
    AllSteps(Decoded(block), Regs(s[0], s[1], s[2], s[3]));
  }

  lemma DigestOfAbc(m: seq<Byte>)
    requires m == [97, 98, 99]
    ensures Digest(m) == [0x90, 0x01, 0x50, 0x98, 0x3c, 0xd2, 0x4f, 0xb0,
                          0xd6, 0x96, 0x3f, 0x7d, 0x28, 0xe1, 0x7f, 0x72]
  {
    hide Compressed, Decoded, Padding, Encoded;
    var block := m + Padding(3);
    BlockOfAbc(m, block);
    var s := Compressed(block);
    ChainOfAbc(block, s);
    EncodedFour(s);
  }

  lemma EncodedSnoc(s: seq<Word>, n: nat)
    requires n < |s|
    ensures Encoded(s[..n + 1]) == Encoded(s[..n]) + EncodeWord(s[n])
  {
    hide EncodeWord;
    assert s[..n + 1][..n] == s[..n];
  }

  lemma EncodedFour(s: seq<Word>)
    requires |s| == 4
    ensures Encoded(s) == EncodeWord(s[0]) + EncodeWord(s[1]) + EncodeWord(s[2]) + EncodeWord(s[3])
  {
    hide EncodeWord, Encoded;
    EncodedOfNone(s[..0]);
    EncodedSnoc(s, 0);
    EncodedSnoc(s, 1);
    EncodedSnoc(s, 2);
    EncodedSnoc(s, 3);
    assert s[..4] == s && [] + EncodeWord(s[0]) == EncodeWord(s[0]);
  }

  lemma EncodedOfNone(s: seq<Word>)
    requires s == []
    ensures Encoded(s) == []
  {
  }
}
