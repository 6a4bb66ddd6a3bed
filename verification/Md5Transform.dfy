/** The compression function of crypt/md5.cpp: `MD5Transform` with its macros unrolled, and the
    step-by-step description of section 3.4 of RFC 1321 that it is proved to follow. */
module Md5Transform {
  import opened Md5Words

  type Byte = bv8
  type Chain = s: seq<Word> | |s| == 4 witness [0, 0, 0, 0]
  type Block = b: seq<Byte> | |b| == 64 witness seq(64, _ => 0)

  // The four macros; each gives the new value of its first argument.
  function FF(a: Word, b: Word, c: Word, d: Word, x: Word, s: Amount, ac: Word): Word
    requires s < 32
  { Operation(a, b, F(b, c, d), x, s, ac) }
  function GG(a: Word, b: Word, c: Word, d: Word, x: Word, s: Amount, ac: Word): Word
    requires s < 32
  { Operation(a, b, G(b, c, d), x, s, ac) }
  function HH(a: Word, b: Word, c: Word, d: Word, x: Word, s: Amount, ac: Word): Word
    requires s < 32
  { Operation(a, b, H(b, c, d), x, s, ac) }
  function II(a: Word, b: Word, c: Word, d: Word, x: Word, s: Amount, ac: Word): Word
    requires s < 32
  { Operation(a, b, I(b, c, d), x, s, ac) }

  const S11: Amount := 7
  const S12: Amount := 12
  const S13: Amount := 17
  const S14: Amount := 22
  const S21: Amount := 5
  const S22: Amount := 9
  const S23: Amount := 14
  const S24: Amount := 20
  const S31: Amount := 4
  const S32: Amount := 11
  const S33: Amount := 16
  const S34: Amount := 23
  const S41: Amount := 6
  const S42: Amount := 10
  const S43: Amount := 15
  const S44: Amount := 21

  // Section 3.4 of RFC 1321.

  datatype Regs = Regs(a: Word, b: Word, c: Word, d: Word)

  /** The table T of the RFC, counted from 0. */
  function T(i: nat): Word
    requires i < 64
  {
    (if i < 32 then
     (if i < 16 then
      (if i < 8 then
       (if i < 4 then
        (if i < 2 then (if i < 1 then 0xd76aa478 else 0xe8c7b756) else (if i < 3 then 0x242070db else 0xc1bdceee))
       else
        (if i < 6 then (if i < 5 then 0xf57c0faf else 0x4787c62a) else (if i < 7 then 0xa8304613 else 0xfd469501)))
      else
       (if i < 12 then
        (if i < 10 then (if i < 9 then 0x698098d8 else 0x8b44f7af) else (if i < 11 then 0xffff5bb1 else 0x895cd7be))
       else
        (if i < 14 then (if i < 13 then 0x6b901122 else 0xfd987193) else (if i < 15 then 0xa679438e else 0x49b40821))))
     else
      (if i < 24 then
       (if i < 20 then
        (if i < 18 then (if i < 17 then 0xf61e2562 else 0xc040b340) else (if i < 19 then 0x265e5a51 else 0xe9b6c7aa))
       else
        (if i < 22 then (if i < 21 then 0xd62f105d else 0x02441453) else (if i < 23 then 0xd8a1e681 else 0xe7d3fbc8)))
      else
       (if i < 28 then
        (if i < 26 then (if i < 25 then 0x21e1cde6 else 0xc33707d6) else (if i < 27 then 0xf4d50d87 else 0x455a14ed))
       else
        (if i < 30 then (if i < 29 then 0xa9e3e905 else 0xfcefa3f8) else (if i < 31 then 0x676f02d9 else 0x8d2a4c8a)))))
    else
     (if i < 48 then
      (if i < 40 then
       (if i < 36 then
        (if i < 34 then (if i < 33 then 0xfffa3942 else 0x8771f681) else (if i < 35 then 0x6d9d6122 else 0xfde5380c))
       else
        (if i < 38 then (if i < 37 then 0xa4beea44 else 0x4bdecfa9) else (if i < 39 then 0xf6bb4b60 else 0xbebfbc70)))
      else
       (if i < 44 then
        (if i < 42 then (if i < 41 then 0x289b7ec6 else 0xeaa127fa) else (if i < 43 then 0xd4ef3085 else 0x04881d05))
       else
        (if i < 46 then (if i < 45 then 0xd9d4d039 else 0xe6db99e5) else (if i < 47 then 0x1fa27cf8 else 0xc4ac5665))))
     else
      (if i < 56 then
       (if i < 52 then
        (if i < 50 then (if i < 49 then 0xf4292244 else 0x432aff97) else (if i < 51 then 0xab9423a7 else 0xfc93a039))
       else
        (if i < 54 then (if i < 53 then 0x655b59c3 else 0x8f0ccc92) else (if i < 55 then 0xffeff47d else 0x85845dd1)))
      else
       (if i < 60 then
        (if i < 58 then (if i < 57 then 0x6fa87e4f else 0xfe2ce6e0) else (if i < 59 then 0xa3014314 else 0x4e0811a1))
       else
        (if i < 62 then (if i < 61 then 0xf7537e82 else 0xbd3af235)
        else (if i < 63 then 0x2ad7d2bb else 0xeb86d391))))))
  }

  /** The word of the block that step `i` uses: each round walks through the block in strides. */
  function WordIndex(i: nat): (k: nat)
    requires i < 64
    ensures k < 16
  {
    if i < 16 then i else if i < 32 then (5 * i + 1) % 16 else if i < 48 then (3 * i + 5) % 16 else 7 * i % 16
  }

  function Shift(i: nat): (s: Amount)
    requires i < 64
    ensures 0 < s < 32
  {
    var n := i % 4;
    if i < 16 then (if n == 0 then 7 else if n == 1 then 12 else if n == 2 then 17 else 22)
    else if i < 32 then (if n == 0 then 5 else if n == 1 then 9 else if n == 2 then 14 else 20)
    else if i < 48 then (if n == 0 then 4 else if n == 1 then 11 else if n == 2 then 16 else 23)
    else (if n == 0 then 6 else if n == 1 then 10 else if n == 2 then 15 else 21)
  }

  /** Step `i`: one register is replaced and the four change places. */
  function Step(r: Regs, x: seq<Word>, i: nat): Regs
    requires |x| == 16 && i < 64
  {
    var sum := Plus(r.a, Plus(Plus(Auxiliary(i / 16, r.b, r.c, r.d), x[WordIndex(i)]), T(i)));
    Regs(r.d, Plus(RotateLeft(sum, Shift(i)), r.b), r.b, r.c)
  }

  /** Steps `from` to `from + n - 1`. */
  function Steps(r: Regs, x: seq<Word>, from: nat, n: nat): Regs
    requires |x| == 16 && from + n <= 64
    decreases n, x
  {
    if n == 0 then r else Step(Steps(r, x, from, n - 1), x, from + n - 1)
  }

  // Words and bytes, the lowest byte first.

  function Assembled(b0: Byte, b1: Byte, b2: Byte, b3: Byte): Word {
    (b0 as Word) | (b1 as Word << 8) | (b2 as Word << 16) | (b3 as Word << 24)
  }

  function DecodeWord(b: seq<Byte>, i: nat): Word
    requires 4 * i + 4 <= |b|
  {
    Assembled(b[4 * i], b[4 * i + 1], b[4 * i + 2], b[4 * i + 3])
  }

  function Decoded(b: Block): (x: seq<Word>)
    ensures |x| == 16
  {
    seq(16, i requires 0 <= i < 16 => DecodeWord(b, i))
  }

  function EncodeWord(w: Word): (b: seq<Byte>)
    ensures |b| == 4
  {
    [(w & 0xff) as Byte, ((w >> 8) & 0xff) as Byte, ((w >> 16) & 0xff) as Byte, ((w >> 24) & 0xff) as Byte]
  }

  function Encoded(ws: seq<Word>): (b: seq<Byte>)
    ensures |b| == 4 * |ws|
  {
    if ws == [] then [] else Encoded(ws[..|ws| - 1]) + EncodeWord(ws[|ws| - 1])
  }

  /** As numbers, lowest byte first. */
  lemma WordIs(b0: Byte, b1: Byte, b2: Byte, b3: Byte)
    ensures Assembled(b0, b1, b2, b3) ==
            b0 as Word + 0x100 * b1 as Word + 0x1_0000 * b2 as Word + 0x100_0000 * b3 as Word
  {
  }

  lemma BytesAre(w: Word)
    ensures EncodeWord(w) == [(w % 0x100) as Byte, (w / 0x100 % 0x100) as Byte, (w / 0x1_0000 % 0x100) as Byte,
                              (w / 0x100_0000) as Byte]
  {
  }

  /** The new chaining value after a block. */
  function Transform(s: Chain, b: Block): Chain {
    Added(s, Steps(Regs(s[0], s[1], s[2], s[3]), Decoded(b), 0, 64))
  }

  function Added(s: Chain, q: Regs): Chain { 
    [Plus(s[0], q.a), Plus(s[1], q.b), Plus(s[2], q.c), Plus(s[3], q.d)]
  }

  // Each macro, used for step `i`, takes the registers one step further.

  method StepFF(ghost r: Regs, x: seq<Word>, ghost i: nat, a: Word, b: Word, c: Word, d: Word,
                k: nat, s: Amount, ac: Word) returns (a': Word)
    requires |x| == 16 && 0 <= i < 16 && Regs(a, b, c, d) == Steps(r, x, 0, i)
    requires k == i && s == Shift(i) && ac == T(i)
    ensures Regs(d, a', b, c) == Steps(r, x, 0, i + 1)
  {
    hide F, RotateLeft, Choice, Plus, T, Shift;
    MacroIsF(b, c, d);
    a' := FF(a, b, c, d, x[k], s, ac);
  }

  method StepGG(ghost r: Regs, x: seq<Word>, ghost i: nat, a: Word, b: Word, c: Word, d: Word,
                k: nat, s: Amount, ac: Word) returns (a': Word)
    requires |x| == 16 && 16 <= i < 32 && Regs(a, b, c, d) == Steps(r, x, 0, i)
    requires k == (5 * i + 1) % 16 && s == Shift(i) && ac == T(i)
    ensures Regs(d, a', b, c) == Steps(r, x, 0, i + 1)
  {
    hide G, RotateLeft, Choice, Plus, T, Shift;
    MacroIsG(b, c, d);
    a' := GG(a, b, c, d, x[k], s, ac);
  }

  method StepHH(ghost r: Regs, x: seq<Word>, ghost i: nat, a: Word, b: Word, c: Word, d: Word,
                k: nat, s: Amount, ac: Word) returns (a': Word)
    requires |x| == 16 && 32 <= i < 48 && Regs(a, b, c, d) == Steps(r, x, 0, i)
    requires k == (3 * i + 5) % 16 && s == Shift(i) && ac == T(i)
    ensures Regs(d, a', b, c) == Steps(r, x, 0, i + 1)
  {
    hide H, RotateLeft, Choice, Plus, T, Shift;
    MacroIsH(b, c, d);
    a' := HH(a, b, c, d, x[k], s, ac);
  }

  method StepII(ghost r: Regs, x: seq<Word>, ghost i: nat, a: Word, b: Word, c: Word, d: Word,
                k: nat, s: Amount, ac: Word) returns (a': Word)
    requires |x| == 16 && 48 <= i < 64 && Regs(a, b, c, d) == Steps(r, x, 0, i)
    requires k == 7 * i % 16 && s == Shift(i) && ac == T(i)
    ensures Regs(d, a', b, c) == Steps(r, x, 0, i + 1)
  {
    hide I, RotateLeft, Choice, Plus, T, Shift;
    MacroIsI(b, c, d);
    a' := II(a, b, c, d, x[k], s, ac);
  }

  /** Round 1, unrolled. */
  method Round1(ghost r: Regs, x: seq<Word>, p: Regs) returns (q: Regs)
    requires |x| == 16 && p == Steps(r, x, 0, 0)
    ensures q == Steps(r, x, 0, 16)
  {
    hide Steps;
    var (a, b, c, d) := (p.a, p.b, p.c, p.d);
    a := StepFF(r, x, 0, a, b, c, d, 0, S11, 0xd76aa478);
    d := StepFF(r, x, 1, d, a, b, c, 1, S12, 0xe8c7b756);
    c := StepFF(r, x, 2, c, d, a, b, 2, S13, 0x242070db);
    b := StepFF(r, x, 3, b, c, d, a, 3, S14, 0xc1bdceee);
    a := StepFF(r, x, 4, a, b, c, d, 4, S11, 0xf57c0faf);
    d := StepFF(r, x, 5, d, a, b, c, 5, S12, 0x4787c62a);
    c := StepFF(r, x, 6, c, d, a, b, 6, S13, 0xa8304613);
    b := StepFF(r, x, 7, b, c, d, a, 7, S14, 0xfd469501);
    a := StepFF(r, x, 8, a, b, c, d, 8, S11, 0x698098d8);
    d := StepFF(r, x, 9, d, a, b, c, 9, S12, 0x8b44f7af);
    c := StepFF(r, x, 10, c, d, a, b, 10, S13, 0xffff5bb1);
    b := StepFF(r, x, 11, b, c, d, a, 11, S14, 0x895cd7be);
    a := StepFF(r, x, 12, a, b, c, d, 12, S11, 0x6b901122);
    d := StepFF(r, x, 13, d, a, b, c, 13, S12, 0xfd987193);
    c := StepFF(r, x, 14, c, d, a, b, 14, S13, 0xa679438e);
    b := StepFF(r, x, 15, b, c, d, a, 15, S14, 0x49b40821);
    q := Regs(a, b, c, d);
  }

  /** Round 2, unrolled. */
  method Round2(ghost r: Regs, x: seq<Word>, p: Regs) returns (q: Regs)
    requires |x| == 16 && p == Steps(r, x, 0, 16)
    ensures q == Steps(r, x, 0, 32)
  {
    hide Steps;
    var (a, b, c, d) := (p.a, p.b, p.c, p.d);
    a := StepGG(r, x, 16, a, b, c, d, 1, S21, 0xf61e2562);
    d := StepGG(r, x, 17, d, a, b, c, 6, S22, 0xc040b340);
    c := StepGG(r, x, 18, c, d, a, b, 11, S23, 0x265e5a51);
    b := StepGG(r, x, 19, b, c, d, a, 0, S24, 0xe9b6c7aa);
    a := StepGG(r, x, 20, a, b, c, d, 5, S21, 0xd62f105d);
    d := StepGG(r, x, 21, d, a, b, c, 10, S22, 0x02441453);
    c := StepGG(r, x, 22, c, d, a, b, 15, S23, 0xd8a1e681);
    b := StepGG(r, x, 23, b, c, d, a, 4, S24, 0xe7d3fbc8);
    a := StepGG(r, x, 24, a, b, c, d, 9, S21, 0x21e1cde6);
    d := StepGG(r, x, 25, d, a, b, c, 14, S22, 0xc33707d6);
    c := StepGG(r, x, 26, c, d, a, b, 3, S23, 0xf4d50d87);
    b := StepGG(r, x, 27, b, c, d, a, 8, S24, 0x455a14ed);
    a := StepGG(r, x, 28, a, b, c, d, 13, S21, 0xa9e3e905);
    d := StepGG(r, x, 29, d, a, b, c, 2, S22, 0xfcefa3f8);
    c := StepGG(r, x, 30, c, d, a, b, 7, S23, 0x676f02d9);
    b := StepGG(r, x, 31, b, c, d, a, 12, S24, 0x8d2a4c8a);
    q := Regs(a, b, c, d);
  }

  /** Round 3, unrolled. */
  method Round3(ghost r: Regs, x: seq<Word>, p: Regs) returns (q: Regs)
    requires |x| == 16 && p == Steps(r, x, 0, 32)
    ensures q == Steps(r, x, 0, 48)
  {
    hide Steps;
    var (a, b, c, d) := (p.a, p.b, p.c, p.d);
    a := StepHH(r, x, 32, a, b, c, d, 5, S31, 0xfffa3942);
    d := StepHH(r, x, 33, d, a, b, c, 8, S32, 0x8771f681);
    c := StepHH(r, x, 34, c, d, a, b, 11, S33, 0x6d9d6122);
    b := StepHH(r, x, 35, b, c, d, a, 14, S34, 0xfde5380c);
    a := StepHH(r, x, 36, a, b, c, d, 1, S31, 0xa4beea44);
    d := StepHH(r, x, 37, d, a, b, c, 4, S32, 0x4bdecfa9);
    c := StepHH(r, x, 38, c, d, a, b, 7, S33, 0xf6bb4b60);
    b := StepHH(r, x, 39, b, c, d, a, 10, S34, 0xbebfbc70);
    a := StepHH(r, x, 40, a, b, c, d, 13, S31, 0x289b7ec6);
    d := StepHH(r, x, 41, d, a, b, c, 0, S32, 0xeaa127fa);
    c := StepHH(r, x, 42, c, d, a, b, 3, S33, 0xd4ef3085);
    b := StepHH(r, x, 43, b, c, d, a, 6, S34, 0x04881d05);
    a := StepHH(r, x, 44, a, b, c, d, 9, S31, 0xd9d4d039);
    d := StepHH(r, x, 45, d, a, b, c, 12, S32, 0xe6db99e5);
    c := StepHH(r, x, 46, c, d, a, b, 15, S33, 0x1fa27cf8);
    b := StepHH(r, x, 47, b, c, d, a, 2, S34, 0xc4ac5665);
    q := Regs(a, b, c, d);
  }

  /** Round 4, unrolled. */
  method Round4(ghost r: Regs, x: seq<Word>, p: Regs) returns (q: Regs)
    requires |x| == 16 && p == Steps(r, x, 0, 48)
    ensures q == Steps(r, x, 0, 64)
  {
    hide Steps;
    var (a, b, c, d) := (p.a, p.b, p.c, p.d);
    a := StepII(r, x, 48, a, b, c, d, 0, S41, 0xf4292244);
    d := StepII(r, x, 49, d, a, b, c, 7, S42, 0x432aff97);
    c := StepII(r, x, 50, c, d, a, b, 14, S43, 0xab9423a7);
    b := StepII(r, x, 51, b, c, d, a, 5, S44, 0xfc93a039);
    a := StepII(r, x, 52, a, b, c, d, 12, S41, 0x655b59c3);
    d := StepII(r, x, 53, d, a, b, c, 3, S42, 0x8f0ccc92);
    c := StepII(r, x, 54, c, d, a, b, 10, S43, 0xffeff47d);
    b := StepII(r, x, 55, b, c, d, a, 1, S44, 0x85845dd1);
    a := StepII(r, x, 56, a, b, c, d, 8, S41, 0x6fa87e4f);
    d := StepII(r, x, 57, d, a, b, c, 15, S42, 0xfe2ce6e0);
    c := StepII(r, x, 58, c, d, a, b, 6, S43, 0xa3014314);
    b := StepII(r, x, 59, b, c, d, a, 13, S44, 0x4e0811a1);
    a := StepII(r, x, 60, a, b, c, d, 4, S41, 0xf7537e82);
    d := StepII(r, x, 61, d, a, b, c, 11, S42, 0xbd3af235);
    c := StepII(r, x, 62, c, d, a, b, 2, S43, 0x2ad7d2bb);
    b := StepII(r, x, 63, b, c, d, a, 9, S44, 0xeb86d391);
    q := Regs(a, b, c, d);
  }

  method AllRounds(r: Regs, x: seq<Word>) returns (q: Regs)
    requires |x| == 16
    ensures q == Steps(r, x, 0, 64)
  {
    assert r == Steps(r, x, 0, 0);
    hide Steps;
    q := Round1(r, x, r);
    q := Round2(r, x, q);
    q := Round3(r, x, q);
    q := Round4(r, x, q);
  }

  method MD5Transform(state: array<Word>, block: Block)
    requires state.Length == 4
    modifies state
    ensures state[..] == Transform(old(state[..]), block)
  {
    hide Steps, Decoded, Added;
    var x := Decode(block);
    var q := AllRounds(Regs(state[0], state[1], state[2], state[3]), x);
    AddTo(state, q);
  }

  method AddTo(state: array<Word>, q: Regs)
    requires state.Length == 4
    modifies state
    ensures state[..] == Added(old(state[..]), q)
  {
    hide Plus;
    state[0] := Plus(state[0], q.a);
    state[1] := Plus(state[1], q.b);
    state[2] := Plus(state[2], q.c);
    state[3] := Plus(state[3], q.d);
  }

  method Decode(input: Block) returns (x: seq<Word>)
    ensures x == Decoded(input)
  {
    x := [];
    for i := 0 to 16
      invariant |x| == i && forall j | 0 <= j < i :: x[j] == DecodeWord(input, j)
    {
      x := x + [DecodeWord(input, i)];
    }
  }

  method Encode(input: seq<Word>) returns (output: seq<Byte>)
    ensures output == Encoded(input)
  {
    output := [];
    for i := 0 to |input|
      invariant output == Encoded(input[..i])
    {
      assert input[..i + 1][..i] == input[..i];
      output := output + EncodeWord(input[i]);
    }
    assert input[..|input|] == input;
  }
}
