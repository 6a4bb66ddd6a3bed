/** The streaming hash of crypt/md5.cpp and its callers, against sections 3.1 to 3.5 of RFC 1321. */
module Md5 {
  import opened Md5Transform
  import opened Md5Words
  import opened Optional

  const TWO29 := 0x2000_0000
  const TWO32 := 0x1_0000_0000
  const TWO64 := 0x1_0000_0000_0000_0000

  function IV(): Chain { [0x67452301, 0xefcdab89, 0x98badcfe, 0x10325476] }

  /** The chaining value after whole blocks. */
  function Compressed(blocks: seq<Byte>): Chain
    requires |blocks| % 64 == 0
  {
    if blocks == [] then IV()
    else Transform(Compressed(blocks[..|blocks| - 64]), blocks[|blocks| - 64..])
  }

  /** Section 3.2: the bit count as two words, the low one first. */
  function LengthBytes(bits: nat): (b: seq<Byte>)
    ensures |b| == 8
  {
    Encoded([(bits % TWO32) as Word, (bits / TWO32 % TWO32) as Word])
  }

  /** Sections 3.1 and 3.2: one byte 0x80, zeros up to 56 modulo 64, the length. */
  function Padding(n: nat): seq<Byte> {
    [0x80] + Zeros((55 - n) % 64) + LengthBytes(8 * n)
  }

  function Zeros(n: nat): (z: seq<Byte>)
    ensures |z| == n
  {
    seq(n, _ => 0)
  }

  lemma PaddingFillsBlock(n: nat)
    ensures (n + |Padding(n)|) % 64 == 0
  {
    hide LengthBytes, Zeros;
    assert |Padding(n)| == 9 + (55 - n) % 64;
  }

  /** The padding byte by byte: the fewest zeros that fill the block. */
  lemma PaddingIs(n: nat)
    ensures 9 <= |Padding(n)| <= 72 && (n + |Padding(n)|) % 64 == 0
    ensures Padding(n)[0] == 0x80 && Padding(n)[|Padding(n)| - 8..] == LengthBytes(8 * n)
    ensures forall i | 1 <= i < |Padding(n)| - 8 :: Padding(n)[i] == 0
  {
    hide LengthBytes;
    PaddingFillsBlock(n);
    assert |Padding(n)| == 9 + (55 - n) % 64;
  }

  /** The digest of a message. */
  function Digest(m: seq<Byte>): (d: seq<Byte>)
    ensures |d| == 16
  {
    PaddingFillsBlock(|m|);
    Encoded(Compressed(m + Padding(|m|)))
  }

  lemma CompressedOfNone()
    ensures Compressed([]) == IV()
  {
  }

  lemma CompressedStep(all: seq<Byte>, n: nat)
    requires n % 64 == 0 && n + 64 <= |all|
    ensures Compressed(all[..n + 64]) == Transform(Compressed(all[..n]), all[n..n + 64])
  {
    var blocks := all[..n + 64];
    assert blocks[..n] == all[..n] && blocks[n..] == all[n..n + 64];
  }

  /** The test of the block loop, in the 32-bit arithmetic in which it is evaluated. */
  predicate AnotherBlock(i: nat, inputLen: nat) { (i + 63) % TWO32 < inputLen }

  /** Where the block loop has to stop: the end of the last whole block, as an offset in the input. */
  function LastWhole(fed: nat, inputLen: nat): int { inputLen - (fed + inputLen) % 64 }

  /** The inputs for which the sum in that test does not wrap around at the end of the blocks. */
  predicate Fits(fed: nat, inputLen: nat) {
    inputLen < TWO32 && LastWhole(fed, inputLen) + 63 < TWO32
  }

  /** The condition is exact: the loop ends where it has to, and from no start of a block reads beyond the
      input, if and only if the input fits. */
  lemma FitsExactly(fed: nat, inputLen: nat)
    requires inputLen < TWO32 && LastWhole(fed, inputLen) >= 0
    ensures Fits(fed, inputLen) <==> !AnotherBlock(LastWhole(fed, inputLen), inputLen)
    ensures Fits(fed, inputLen) <==>
            forall i | 0 <= i <= inputLen && (fed + i) % 64 == 0 :: AnotherBlock(i, inputLen) ==> i + 64 <= inputLen
  {
    hide AnotherBlock, Fits, LastWhole;
    FitsAtEnd(fed, inputLen);
    if Fits(fed, inputLen) {
      forall i | 0 <= i <= inputLen && (fed + i) % 64 == 0 ensures AnotherBlock(i, inputLen) ==> i + 64 <= inputLen {
        BlockLoop(fed, inputLen, i);
      }
    }
  }

  lemma FitsAtEnd(fed: nat, inputLen: nat)
    requires inputLen < TWO32 && LastWhole(fed, inputLen) >= 0
    ensures var end := LastWhole(fed, inputLen);
            end <= inputLen < end + 64 && (fed + end) % 64 == 0
            && (Fits(fed, inputLen) <==> !AnotherBlock(end, inputLen))
  {
    var p := (fed + inputLen) / 64;
    assert fed + LastWhole(fed, inputLen) == 64 * p;
  }

  /** One byte, then 2^32 - 1 more: after the last whole block, which ends the input, the loop goes on. */
  lemma LongestAfterOneFails()
    ensures !Fits(1, 0xffff_ffff) && LastWhole(1, 0xffff_ffff) == 0xffff_ffff
    ensures AnotherBlock(0xffff_ffff, 0xffff_ffff)
  {
  }

  /** Every input of at most 2^32 - 64 bytes fits, and after whole blocks every input does. */
  lemma ShortFits(fed: nat, inputLen: nat)
    requires inputLen <= TWO32 - 64 || (inputLen < TWO32 && fed % 64 == 0)
    ensures Fits(fed, inputLen)
  {
  }

  /** The block loop at `i`: another block, which ends in time, or the end. */
  lemma BlockLoop(fed: nat, inputLen: nat, i: nat)
    requires Fits(fed, inputLen) && (fed + i) % 64 == 0 && i <= inputLen
    ensures i <= LastWhole(fed, inputLen) <= inputLen
    ensures AnotherBlock(i, inputLen) ==> i + 64 <= LastWhole(fed, inputLen) && (i + 64) % TWO32 == i + 64
    ensures !AnotherBlock(i, inputLen) ==> i == LastWhole(fed, inputLen)
  {
    var (q, p) := ((fed + i) / 64, (fed + inputLen) / 64);
    assert fed + i == 64 * q && fed + LastWhole(fed, inputLen) == 64 * p && q <= p;
  }

  // The counter words after `inputLen` more bytes: a carry out of the low word goes to the high
  // one, and so do the top three bits of the length.

  function NextLow(c0: int, inputLen: nat): int { (c0 + 8 * inputLen % TWO32) % TWO32 }

  function NextHigh(c0: int, c1: int, inputLen: nat): int {
    var carried := if NextLow(c0, inputLen) < 8 * inputLen % TWO32 then (c1 + 1) % TWO32 else c1;
    (carried + inputLen / TWO29) % TWO32
  }

  /** The two words `c0` and `c1` count the bits of `n` bytes, modulo 2^64. */
  predicate Counts(c0: int, c1: int, n: nat) {
    0 <= c0 < TWO32 && 0 <= c1 < TWO32 && c0 + TWO32 * c1 == 8 * n % TWO64
  }

  /** A sum of two words and its carry. */
  lemma Carry(a: nat, b: nat)
    requires a < TWO32 && b < TWO32
    ensures a + b == (a + b) % TWO32 + if (a + b) % TWO32 < b then TWO32 else 0
  {
  }

  lemma HighWord(c: nat, high: nat)
    ensures (c % TWO32 + high) % TWO32 == (c + high) % TWO32
  {
    var q := c / TWO32;
    assert c % TWO32 + high + TWO32 * q == c + high;
    Split32(c + high, (c + high) / TWO32, (c + high) % TWO32);
    var d := (c % TWO32 + high) / TWO32;
    Split32(c + high, d + q, (c % TWO32 + high) % TWO32);
  }

  lemma CountStep(c0: int, c1: int, n: nat, inputLen: nat)
    requires Counts(c0, c1, n) && inputLen < TWO32
    ensures Counts(NextLow(c0, inputLen), NextHigh(c0, c1, inputLen), n + inputLen)
  {
    var q := 8 * n / TWO64;
    assert 8 * n == TWO64 * q + c0 + TWO32 * c1;
    var (low, high) := (8 * inputLen % TWO32, inputLen / TWO29);
    Eighth(inputLen);
    var d0 := (c0 + low) % TWO32;
    Carry(c0, low);
    var carried := if d0 < low then c1 + 1 else c1;
    HighWord(carried, high);
    AddWords(8 * n, q, c0, c1, 8 * inputLen, low, high, d0, carried);
    NextIs(c0, c1, inputLen, low, high, d0, carried);
  }

  lemma Eighth(inputLen: nat)
    ensures 8 * inputLen == 8 * inputLen % TWO32 + TWO32 * (inputLen / TWO29)
  {
    var (q, r) := (inputLen / TWO29, inputLen % TWO29);
    assert inputLen == TWO29 * q + r;
    Split32(8 * inputLen, q, 8 * r);
  }

  lemma NextIs(c0: int, c1: int, inputLen: nat, low: int, high: int, d0: int, carried: int)
    requires 0 <= c0 < TWO32 && 0 <= c1 < TWO32 && low == 8 * inputLen % TWO32 && high == inputLen / TWO29
    requires d0 == (c0 + low) % TWO32 && carried == if d0 < low then c1 + 1 else c1
    requires (carried % TWO32 + high) % TWO32 == (carried + high) % TWO32
    ensures NextLow(c0, inputLen) == d0 && NextHigh(c0, c1, inputLen) == (carried + high) % TWO32
  {
    assert c1 % TWO32 == c1;
  }

  lemma AddWords(a: nat, q: nat, c0: nat, c1: nat, b: nat, low: nat, high: nat, d0: nat, carried: nat)
    requires a == TWO64 * q + c0 + TWO32 * c1 && b == low + TWO32 * high && d0 < TWO32
    requires c0 + low == d0 + TWO32 * (carried - c1)
    ensures d0 + TWO32 * ((carried + high) % TWO32) == (a + b) % TWO64
  {
    var t := carried + high;
    assert a + b == TWO64 * (q + t / TWO32) + d0 + TWO32 * (t % TWO32);
    ModIs(a + b, q + t / TWO32, d0 + TWO32 * (t % TWO32));
  }

  lemma CountWords(c0: int, c1: int, n: nat)
    requires Counts(c0, c1, n)
    ensures c0 / 8 % 64 == n % 64 && c0 == 8 * n % TWO32 && c1 == 8 * n / TWO32 % TWO32
  {
    var q := 8 * n / TWO64;
    var high := c1 + TWO32 * q;
    assert 8 * n == c0 + TWO32 * high;
    Split32(8 * n, high, c0);
    Split32(high, q, c1);
    assert c0 == 8 * (n - TWO29 * high);
    Mod64(n - TWO29 * high, 0x80_0000 * high);
  }

  // Quotients and remainders are unique.

  lemma Split32(x: nat, q: nat, r: nat)
    requires x == r + TWO32 * q && r < TWO32
    ensures x / TWO32 == q && x % TWO32 == r
  {
  }

  lemma Mod64(a: int, k: int)
    ensures (a + 64 * k) % 64 == a % 64
  {
  }

  lemma ModIs(x: nat, q: nat, r: nat)
    requires x == TWO64 * q + r && r < TWO64
    ensures x % TWO64 == r
  {
  }

  method NewState(s: Chain) returns (state: array<Word>)
    ensures fresh(state) && state[..] == s
  {
    state := new Word[4](i requires 0 <= i < 4 => s[i]);
  }

  class Md5Context {
    const state: array<Word>
    var count0: int
    var count1: int
    const buffer: array<Byte>
    /** Everything that was fed to the context so far. */
    ghost var fed: seq<Byte>

    ghost predicate Valid()
      reads this, state, buffer
    {
      HoldsAll(state, buffer, fed) && Counts(count0, count1, |fed|)
    }

    /** `MD5Init`. */
    constructor ()
      ensures Valid() && fresh(state) && fresh(buffer) && fed == []
    {
      hide Compressed, IV, HoldsAll;
      var s := NewState(IV());
      state := s;
      buffer := new Byte[64];
      count0, count1 := 0, 0;
      fed := [];
      new;
      HoldsNothing(state, buffer);
    }

    /** `MD5_memcpy` to the buffer. */
    method Memcpy(at: nat, input: seq<Byte>)
      requires buffer.Length == 64 && at + |input| <= 64
      modifies buffer
      ensures buffer[..at] == old(buffer[..at]) && buffer[at..at + |input|] == input
    {
      for i := 0 to |input|
        invariant buffer[..at] == old(buffer[..at]) && buffer[at..at + i] == input[..i]
      {
        buffer[at + i] := input[i];
      }
    }

    /** The whole blocks of the input from `from` on; `done` is what was fed before the input. */
    method Blocks(input: seq<Byte>, from: nat, ghost done: seq<Byte>) returns (i: nat)
      requires state.Length == 4 && from <= |input| && Fits(|done|, |input|) && (|done| + from) % 64 == 0
      requires state[..] == Compressed((done + input)[..|done| + from])
      modifies state
      ensures from <= i <= |input| && (|done| + i) % 64 == 0 && i == LastWhole(|done|, |input|)
      ensures state[..] == Compressed((done + input)[..|done| + i])
    {
      hide Transform, Compressed, AnotherBlock, LastWhole, Fits;
      i := from;
      BlockLoop(|done|, |input|, i);
      while AnotherBlock(i, |input|)
        invariant from <= i <= LastWhole(|done|, |input|) <= |input| && (|done| + i) % 64 == 0
        invariant AnotherBlock(i, |input|) ==> i + 64 <= LastWhole(|done|, |input|) && (i + 64) % TWO32 == i + 64
        invariant !AnotherBlock(i, |input|) ==> i == LastWhole(|done|, |input|)
        invariant state[..] == Compressed((done + input)[..|done| + i])
        decreases |input| - i
      {
        CompressBlock(done, input, i);
        MD5Transform(state, input[i..i + 64]);
        i := (i + 64) % TWO32;
        BlockLoop(|done|, |input|, i);
      }
    }

    /** The update of the counter. */
    method AddCount(inputLen: nat)
      modifies this`count0, this`count1
      ensures count0 == NextLow(old(count0), inputLen)
      ensures count1 == NextHigh(old(count0), old(count1), inputLen)
    {
      var low := 8 * inputLen % TWO32;
      count0 := (count0 + low) % TWO32;
      if count0 < low {
        count1 := (count1 + 1) % TWO32;
      }
      count1 := (count1 + inputLen / TWO29) % TWO32;
    }

    /** The buffer is filled up from the input and compressed. */
    method FillUp(input: seq<Byte>, held: nat)
      requires state.Length == 4 && buffer.Length == 64 && held == |fed| % 64 && |input| >= 64 - held
      requires state[..] == Compressed(fed[..|fed| - held]) && buffer[..held] == fed[|fed| - held..]
      modifies state, buffer
      ensures state[..] == Compressed((fed + input)[..|fed| + (64 - held)])
    {
      hide Transform, Compressed;
      ghost var all, n := fed + input, |fed| - held;
      assert all[..n] == fed[..n];
      Memcpy(held, input[..64 - held]);
      FirstBlock(fed, input);
      assert buffer[..] == buffer[..held] + buffer[held..held + (64 - held)];
      CompressedStep(all, n);
      MD5Transform(state, buffer[..]);
    }

    /** The rest of an update: the buffer is filled up and compressed, then the whole blocks, and what
        is left goes to the buffer. */
    method Absorb(input: seq<Byte>, held: nat)
      requires state.Length == 4 && buffer.Length == 64 && held == |fed| % 64 && Fits(|fed|, |input|)
      requires state[..] == Compressed(fed[..|fed| - held]) && buffer[..held] == fed[|fed| - held..]
      modifies state, buffer
      ensures HoldsAll(state, buffer, fed + input)
    {
      hide Transform, Compressed, LastWhole, Fits, HoldsAll;
      if |input| >= 64 - held {
        FillUp(input, held);
        var i := Blocks(input, 64 - held, fed);
        WholeEnd(fed, input);
        Memcpy(0, input[i..]);
        assert buffer[..|input[i..]|] == buffer[0..0 + |input[i..]|];
        HoldsAfter(state, buffer, fed + input, |fed| + i);
      } else {
        KeepAll(input, held);
      }
    }

    /** A short input goes to the buffer. */
    method KeepAll(input: seq<Byte>, held: nat)
      requires state.Length == 4 && buffer.Length == 64 && held == |fed| % 64 && |input| < 64 - held
      requires state[..] == Compressed(fed[..|fed| - held]) && buffer[..held] == fed[|fed| - held..]
      modifies buffer
      ensures HoldsAll(state, buffer, fed + input)
    {
      hide Compressed, HoldsAll;
      Memcpy(held, input);
      ShortEnd(fed, input);
      assert buffer[..held + |input|] == buffer[..held] + buffer[held..held + |input|];
      HoldsAfter(state, buffer, fed + input, |fed| - held);
    }

    method MD5Update(input: seq<Byte>)
      requires Valid() && Fits(|fed|, |input|)
      modifies this, state, buffer
      ensures Valid() && fed == old(fed) + input
    {
      hide Compressed, Counts, NextLow, NextHigh;
      CountStep(count0, count1, |fed|, |input|);
      CountWords(count0, count1, |fed|);
      var index := count0 / 8 % 64;
      AddCount(|input|);
      Absorb(input, index);
      fed := fed + input;
    }

    /** The wiping of the context. */
    method Wipe()
      requires state.Length == 4 && buffer.Length == 64
      modifies this, state, buffer
      ensures count0 == count1 == 0 && state[..] == [0, 0, 0, 0] && buffer[..] == Zeros(64)
    {
      forall k | 0 <= k < 4 {
        state[k] := 0;
      }
      forall k | 0 <= k < 64 {
        buffer[k] := 0;
      }
      count0, count1 := 0, 0;
    }

    /** The two updates of `MD5Final`. */
    method FeedPadding(bits: seq<Byte>)
      requires Valid() && bits == Encoded([count0 as Word, count1 as Word])
      modifies this, state, buffer
      ensures state.Length == 4 && buffer.Length == 64 && Encoded(state[..]) == Digest(old(fed))
    {
      hide Encoded, Counts, Padding, Zeros, HoldsAll, Digest;
      ghost var m := fed;
      FinalPadding(count0, count1, fed);
      CountWords(count0, count1, |fed|);
      var index := count0 / 8 % 64;
      var padLen := if index < 56 then 56 - index else 120 - index;
      ShortFits(|fed|, padLen);
      MD5Update([0x80] + Zeros(padLen - 1));
      ShortFits(|fed|, 8);
      MD5Update(bits);
      HoldsDigest(state, buffer, m, fed);
    }

    /** `MD5Final`: the padding and the length go through the same updates. */
    method MD5Final() returns (digest: seq<Byte>)
      requires Valid()
      modifies this, state, buffer
      ensures digest == Digest(old(fed))
      ensures count0 == count1 == 0 && state[..] == [0, 0, 0, 0] && buffer[..] == Zeros(64)
    {
      hide HoldsAll, Encoded, Digest, Zeros;
      var bits := Encode([count0 as Word, count1 as Word]);
      FeedPadding(bits);
      digest := Encode(state[..]);
      Wipe();
    }
  }

  /** The contents of a context that was fed `all`. */
  ghost predicate HoldsAll(state: array<Word>, buffer: array<Byte>, all: seq<Byte>)
    reads state, buffer
  {
    && state.Length == 4 && buffer.Length == 64
    && state[..] == Compressed(all[..|all| - |all| % 64])
    && buffer[..|all| % 64] == all[|all| - |all| % 64..]
  }

  lemma HoldsDigest(state: array<Word>, buffer: array<Byte>, m: seq<Byte>, all: seq<Byte>)
    requires HoldsAll(state, buffer, all) && all == m + Padding(|m|)
    ensures state.Length == 4 && buffer.Length == 64 && Encoded(state[..]) == Digest(m)
  {
    hide Compressed, Encoded, Padding;
    PaddingFillsBlock(|m|);
    assert all[..|all|] == all;
  }

  lemma HoldsAfter(state: array<Word>, buffer: array<Byte>, all: seq<Byte>, n: nat)
    requires state.Length == 4 && buffer.Length == 64 && n == |all| - |all| % 64
    requires state[..] == Compressed(all[..n]) && buffer[..|all| % 64] == all[n..]
    ensures HoldsAll(state, buffer, all)
  {
    hide Compressed;
  }

  lemma HoldsNothing(state: array<Word>, buffer: array<Byte>)
    requires state.Length == 4 && buffer.Length == 64 && state[..] == IV()
    ensures HoldsAll(state, buffer, [])
  {
    hide Compressed, IV;
    CompressedOfNone();
    var all: seq<Byte> := [];
    assert all[..0] == [] && buffer[..0] == all[0..];
  }

  // Where the last whole block ends.

  lemma FirstBlock(fed: seq<Byte>, input: seq<Byte>)
    requires |input| >= 64 - |fed| % 64
    ensures var (held, n) := (|fed| % 64, |fed| - |fed| % 64);
            (fed + input)[n..n + 64] == fed[n..] + input[..64 - held]
  {
  }

  lemma CompressBlock(fed: seq<Byte>, input: seq<Byte>, i: nat)
    requires i + 64 <= |input| && (|fed| + i) % 64 == 0
    ensures (|fed| + (i + 64)) % 64 == 0
    ensures Compressed((fed + input)[..|fed| + (i + 64)]) ==
            Transform(Compressed((fed + input)[..|fed| + i]), input[i..i + 64])
  {
    hide Compressed, Transform;
    CompressedStep(fed + input, |fed| + i);
    assert (fed + input)[|fed| + i..|fed| + i + 64] == input[i..i + 64];
  }

  lemma LastWholeIn(fed: nat, inputLen: nat)
    requires inputLen >= 64 - fed % 64
    ensures 0 <= LastWhole(fed, inputLen) <= inputLen
    ensures fed + inputLen - (fed + inputLen) % 64 == fed + LastWhole(fed, inputLen)
  {
    var (q, r) := ((fed + inputLen) / 64, (fed + inputLen) % 64);
    assert fed + inputLen == 64 * q + r && q > fed / 64;
  }

  lemma WholeEnd(fed: seq<Byte>, input: seq<Byte>)
    requires |input| >= 64 - |fed| % 64
    ensures var (all, i) := (fed + input, LastWhole(|fed|, |input|));
            && 0 <= i <= |input| && |all| - |all| % 64 == |fed| + i
            && all[|all| - |all| % 64..] == input[i..] && |input[i..]| == |all| % 64
  {
    hide LastWhole;
    LastWholeIn(|fed|, |input|);
    var i: nat := LastWhole(|fed|, |input|);
    assert (fed + input)[|fed| + i..] == input[i..];
  }

  lemma ShortEnd(fed: seq<Byte>, input: seq<Byte>)
    requires |input| < 64 - |fed| % 64
    ensures var (all, held) := (fed + input, |fed| % 64);
            && |all| % 64 == held + |input| && all[|all| - |all| % 64..] == fed[|fed| - held..] + input
            && all[..|all| - |all| % 64] == fed[..|fed| - held]
  {
    Mod64(|fed| % 64 + |input|, |fed| / 64);
  }

  /** What `MD5Final` feeds to the context is the padding of the message, and it ends a block. */
  lemma FinalPadding(c0: int, c1: int, m: seq<Byte>)
    requires Counts(c0, c1, |m|)
    ensures var index := c0 / 8 % 64;
            var padLen := if index < 56 then 56 - index else 120 - index;
            var pad := [0x80] + Zeros(padLen - 1);
            var bits := Encoded([c0 as Word, c1 as Word]);
            && |bits| == 8 && m + Padding(|m|) == m + pad + bits && |m + pad + bits| % 64 == 0
  {
    hide Encoded, Zeros, Counts, LengthBytes;
    assert 0 <= c0 < TWO32 && 0 <= c1 < TWO32 by { CountWords(c0, c1, |m|); }
    CountWords(c0, c1, |m|);
    PadCount(|m|);
    PaddingFillsBlock(|m|);
    LengthOfWords(c0, c1, 8 * |m|);
    var pad := [0x80] + Zeros((55 - |m|) % 64);
    assert m + Padding(|m|) == m + pad + LengthBytes(8 * |m|);
  }

  lemma LengthOfWords(c0: int, c1: int, n: nat)
    requires c0 == n % TWO32 && c1 == n / TWO32 % TWO32
    ensures LengthBytes(n) == Encoded([c0 as Word, c1 as Word])
  {
    hide Encoded;
  }

  lemma PadCount(n: nat)
    ensures var index := n % 64;
            (if index < 56 then 56 - index else 120 - index) - 1 == (55 - n) % 64
  {
    Mod64(55 - n % 64, -(n / 64));
  }

  // Splitting a message.

  function Flatten(chunks: seq<seq<Byte>>): seq<Byte> {
    if chunks == [] then [] else Flatten(chunks[..|chunks| - 1]) + chunks[|chunks| - 1]
  }

  /** However a message is cut into updates of at most 2^32 - 64 bytes, the digest is that of the
      whole message. */
  method DigestOfChunks(chunks: seq<seq<Byte>>) returns (digest: seq<Byte>)
    requires forall c | c in chunks :: |c| <= TWO32 - 64
    ensures digest == Digest(Flatten(chunks))
  {
    hide Digest, HoldsAll, Counts;
    var context := new Md5Context();
    for i := 0 to |chunks|
      invariant context.Valid() && fresh(context) && fresh(context.state) && fresh(context.buffer)
      invariant context.fed == Flatten(chunks[..i])
    {
      assert chunks[..i + 1][..i] == chunks[..i];
      ShortFits(|context.fed|, |chunks[i]|);
      context.MD5Update(chunks[i]);
    }
    assert chunks[..|chunks|] == chunks;
    digest := context.MD5Final();
  }

  /** `md5_calc`, for every length that its parameter can hold. */
  method Md5Calc(input: seq<Byte>) returns (output: seq<Byte>)
    requires |input| < TWO32
    ensures output == Digest(input)
  {
    hide Digest, HoldsAll, Counts;
    var context := new Md5Context();
    ShortFits(0, |input|);
    context.MD5Update(input);
    assert [] + input == input;
    output := context.MD5Final();
  }

  const MAX_BUFFER_SIZE := 4096

  /** What one `read` gives: bytes, the end of the file, or an error. */
  datatype Read = Bytes(data: seq<Byte>) | End | Failed

  /** The successive results of `read` on one file, up to the first that is not positive. */
  ghost predicate IsReading(rs: seq<Read>) {
    && rs != [] && !rs[|rs| - 1].Bytes?
    && forall i | 0 <= i < |rs| - 1 :: rs[i].Bytes? && 1 <= |rs[i].data| <= MAX_BUFFER_SIZE
  }

  function Content(rs: seq<Read>): seq<Byte>
    requires forall r | r in rs :: r.Bytes?
  {
    if rs == [] then [] else Content(rs[..|rs| - 1]) + rs[|rs| - 1].data
  }

  /** `encodeFileUC16`: the digest of the bytes that were read, and whether the end of the file was reached.
      If the file does not open nothing is written to the output. */
  method EncodeFile(opens: bool, rs: seq<Read>) returns (ok: bool, out: Option<seq<Byte>>)
    requires IsReading(rs)
    ensures ok <==> opens && rs[|rs| - 1].End?
    ensures out == if opens then Some(Digest(Content(rs[..|rs| - 1]))) else None
  {
    hide Digest, HoldsAll, Counts;
    if !opens {
      return false, None;
    }
    var context := new Md5Context();
    var i := 0;
    while rs[i].Bytes?
      invariant 0 <= i < |rs|
      invariant context.Valid() && fresh(context) && fresh(context.state) && fresh(context.buffer)
      invariant context.fed == Content(rs[..i])
      decreases |rs| - i
    {
      assert rs[..i + 1][..i] == rs[..i];
      ShortFits(|context.fed|, |rs[i].data|);
      context.MD5Update(rs[i].data);
      i := i + 1;
    }
    assert i == |rs| - 1;
    var digest := context.MD5Final();
    return rs[i].End?, Some(digest);
  }
}
