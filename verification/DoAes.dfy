/** `DoAes256`, the buffer driver of crypt/aes.cpp, and what it means in terms of FIPS-197.  For all
    its name it uses the first 16 bytes of the key. */
module DoAes {
  import opened Fips197
  import opened AesWords
  import opened Aes

  const AES_EN := 0
  const AES_DE := 1

  type Key = k: seq<bv8> | |k| == 16 witness seq(16, _ => 0)

  /** The eleven round keys of a 16-byte key. */
  function Schedule(key: Key): (w: seq<State>)
    ensures |w| == 11
  {
    var e := KeyExpansion(KeyWords(key), 44);
    seq(11, i requires 0 <= i < 11 => State(e[4 * i], e[4 * i + 1], e[4 * i + 2], e[4 * i + 3]))
  }

  function AesEncrypt(key: Key, b: Block): Block { StateBlock(Cipher(BlockState(b), Schedule(key))) }

  function AesDecrypt(key: Key, b: Block): Block { StateBlock(InvCipher(BlockState(b), Schedule(key))) }

  /** AES-128 decryption undoes AES-128 encryption. */
  lemma DecryptOfEncrypt(key: Key, b: Block)
    ensures AesDecrypt(key, AesEncrypt(key, b)) == b
  {
    hide Cipher, InvCipher, Schedule, BlockState, StateBlock;
    var s := BlockState(b);
    BlockOfState(Cipher(s, Schedule(key)), b);
    InvCipherOfCipher(s, Schedule(key));
  }

  /** What a schedule of words that `set_key` made does to a block. */
  lemma ScheduleMatches(key: Key, e: seq<bv32>)
    requires |e| == KS_LENGTH && Cols(e[..44]) == KeyExpansion(KeyWords(key), 44)
    ensures RoundKeys(e, 10) == Schedule(key)
  {
    hide Col, KeyExpansion, KeyWords;
    var w := Cols(e[..44]);
    forall i | 0 <= i < 11 ensures RoundKeys(e, 10)[i] == Schedule(key)[i] {
      assert w[4 * i] == Col(e[4 * i]) && w[4 * i + 1] == Col(e[4 * i + 1]);
      assert w[4 * i + 2] == Col(e[4 * i + 2]) && w[4 * i + 3] == Col(e[4 * i + 3]);
    }
  }

  lemma EncryptedIsAes(key: Key, e: seq<bv32>, b: Block)
    requires |e| == KS_LENGTH && Cols(e[..44]) == KeyExpansion(KeyWords(key), 44)
    ensures Encrypted(b, e) == AesEncrypt(key, b)
  {
    hide Cipher, RoundKeys, Schedule, BlockState, StateBlock, KeyExpansion, KeyWords, Cols;
    ScheduleMatches(key, e);
  }

  lemma DecryptedIsAes(key: Key, e: seq<bv32>, d: seq<bv32>, b: Block)
    requires |e| == |d| == KS_LENGTH && Cols(e[..44]) == KeyExpansion(KeyWords(key), 44)
    requires IsInverseSchedule(RoundKeys(d, 10), RoundKeys(e, 10))
    ensures Decrypted(b, d, 10) == AesDecrypt(key, b)
  {
    hide InvCipher, EqInvCipher, RoundKeys, Schedule, BlockState, StateBlock, KeyExpansion, KeyWords, Cols;
    ScheduleMatches(key, e);
    EqInvCipherIsInvCipher(BlockState(b), RoundKeys(d, 10), RoundKeys(e, 10));
  }

  /** `set_key` for both directions, then `my_encrypt` and `my_decrypt` on one block, which is back
      where it was. */
  method EncryptThenDecrypt(inKey: array<bv8>, blk: array<bv8>) returns (cipher: Block)
    requires inKey.Length == 16 && blk.Length == 16 && inKey != blk
    modifies blk
    ensures cipher == AesEncrypt(inKey[..], old(blk[..])) && blk[..] == old(blk[..])
  {
    hide AesEncrypt, AesDecrypt, Encrypted, Decrypted, Cols, KeyWords, KeyExpansion, RoundKeys, IsInverseSchedule;
    ghost var key: Key := inKey[..];
    ghost var was: Block := blk[..];
    var alg := new AesContext();
    var r := alg.SetKey(inKey, 16, BOTH);
    assert inKey[..16] == key && blk[0..16] == was;
    r := alg.MyEncrypt(blk, 0, blk, 0);
    EncryptedIsAes(key, alg.eKey[..], was);
    cipher := blk[0..16];
    r := alg.MyDecrypt(blk, 0, blk, 0);
    DecryptedIsAes(key, alg.eKey[..], alg.dKey[..], cipher);
    DecryptOfEncrypt(key, was);
    assert blk[0..16] == blk[..];
  }

  // Buffers of whole blocks.

  function Transform(en: bool, key: Key, b: Block): Block {
    if en then AesEncrypt(key, b) else AesDecrypt(key, b)
  }

  /** Every block of `p` through the cipher on its own. */
  function EachBlock(en: bool, key: Key, p: seq<bv8>): (r: seq<bv8>)
    requires |p| % 16 == 0
    ensures |r| == |p|
  {
    if p == [] then []
    else EachBlock(en, key, p[..|p| - 16]) + Transform(en, key, p[|p| - 16..])
  }

  function RoundUp(n: nat): (r: nat)
    ensures r % 16 == 0 && n <= r < n + 16
  {
    (n + 15) / 16 * 16
  }

  /** The data followed by zeros up to the next multiple of 16. */
  function Padded(data: seq<bv8>): (r: seq<bv8>)
    ensures |r| == RoundUp(|data|) && data <= r
    ensures forall i | |data| <= i < |r| :: r[i] == 0
  {
    data + seq(RoundUp(|data|) - |data|, _ => 0)
  }

  /** Block `k` of the output is AES-128 of block `k` of the input, or its inverse, under the same key. */
  lemma {:induction false} EachBlockAt(en: bool, key: Key, p: seq<bv8>, k: nat, b: Block)
    requires |p| % 16 == 0 && 16 * k + 16 <= |p| && b == p[16 * k..16 * k + 16]
    ensures EachBlock(en, key, p)[16 * k..16 * k + 16] == if en then AesEncrypt(key, b) else AesDecrypt(key, b)
    decreases |p|
  {
    hide AesEncrypt, AesDecrypt, EachBlock;
    assert p[..|p|] == p;
    EachBlockStep(en, key, p, |p| / 16 - 1);
    var (r, front) := (EachBlock(en, key, p), EachBlock(en, key, p[..|p| - 16]));
    if 16 * k + 16 < |p| {
      assert p[..|p| - 16][16 * k..16 * k + 16] == b;
      EachBlockAt(en, key, p[..|p| - 16], k, b);
      SliceInFront(r, front, 16 * k, 16 * k + 16);
    } else {
      assert r[16 * k..16 * k + 16] == Transform(en, key, b);
    }
  }

  lemma SliceInFront(r: seq<bv8>, front: seq<bv8>, from: nat, to: nat)
    requires from <= to <= |front| && front <= r
    ensures r[from..to] == front[from..to]
  {
  }

  /** Decrypting what was encrypted gives the data back, padded to whole blocks with zeros. */
  lemma {:induction false} EachBlockInverse(key: Key, p: seq<bv8>)
    requires |p| % 16 == 0
    ensures EachBlock(false, key, EachBlock(true, key, p)) == p
  {
    hide AesEncrypt, AesDecrypt;
    if p != [] {
      var front, last := p[..|p| - 16], p[|p| - 16..];
      EachBlockInverse(key, front);
      DecryptOfEncrypt(key, last);
      var c := EachBlock(true, key, p);
      assert c[..|p| - 16] == EachBlock(true, key, front);
      assert c[|p| - 16..] == AesEncrypt(key, last);
    }
  }

  /** Two calls of `DoAes256`, the second on the output of the first, give the input back, padded. */
  lemma BufferRoundTrip(key: Key, data: seq<bv8>)
    ensures var sent := EachBlock(true, key, Padded(data));
            EachBlock(false, key, Padded(sent)) == Padded(data)
  {
    hide EachBlock, Padded;
    EachBlockInverse(key, Padded(data));
    PaddedWhole(EachBlock(true, key, Padded(data)));
  }

  lemma PaddedWhole(p: seq<bv8>)
    requires |p| % 16 == 0
    ensures Padded(p) == p
  {
  }

  lemma EachBlockStart(en: bool, key: Key, p: seq<bv8>)
    requires |p| % 16 == 0
    ensures EachBlock(en, key, p[..0]) == [] && p[..|p|] == p
  {
  }

  /** `b` is block `k` of the first `n` bytes of `a`, followed by zeros. */
  ghost predicate HoldsBlock(a: array<bv8>, n: nat, b: Block, k: nat)
    reads a
  {
    && n <= a.Length && 16 * k < n
    && b == if 16 * k + 16 <= n then a[16 * k..16 * k + 16] else a[16 * k..n] + seq(16 * k + 16 - n, _ => 0)
  }

  lemma PaddedBlock(data: seq<bv8>, a: array<bv8>, k: nat)
    requires |data| <= a.Length && 16 * k < |data|
    requires forall j | 16 * k <= j < |data| :: a[j] == data[j]
    ensures 16 * k + 16 <= |Padded(data)| && HoldsBlock(a, |data|, Padded(data)[16 * k..16 * k + 16], k)
  {
  }

  lemma EachBlockStep(en: bool, key: Key, p: seq<bv8>, k: nat)
    requires |p| % 16 == 0 && 16 * k + 16 <= |p|
    ensures EachBlock(en, key, p[..16 * k + 16]) ==
            EachBlock(en, key, p[..16 * k]) + Transform(en, key, p[16 * k..16 * k + 16])
  {
    hide Transform;
    var q := p[..16 * k + 16];
    assert q[..|q| - 16] == p[..16 * k] && q[|q| - 16..] == p[16 * k..16 * k + 16];
  }

  /** The schedules of `key` for one direction. */
  ghost predicate AreSchedules(e: seq<bv32>, d: seq<bv32>, en: bool, key: Key)
    requires |e| == |d| == KS_LENGTH
  {
    && Cols(e[..44]) == KeyExpansion(KeyWords(key), 44)
    && (!en ==> IsInverseSchedule(RoundKeys(d, 10), RoundKeys(e, 10)))
  }

  ghost predicate Ready(alg: AesContext, en: bool, key: Key)
    reads alg, alg.eKey, alg.dKey
  {
    && alg.Valid() && alg.nRnd == 10 && alg.mode & (if en then ENC else DEC) != 0
    && AreSchedules(alg.eKey[..], alg.dKey[..], en, key)
  }

  lemma TransformIs(e: seq<bv32>, d: seq<bv32>, en: bool, key: Key, b: Block)
    requires |e| == |d| == KS_LENGTH && AreSchedules(e, d, en, key)
    ensures Transform(en, key, b) == if en then Encrypted(b, e) else Decrypted(b, d, 10)
  {
    hide Cols, KeyWords, KeyExpansion, RoundKeys, IsInverseSchedule, Encrypted, Decrypted, AesEncrypt, AesDecrypt;
    if en {
      EncryptedIsAes(key, e, b);
    } else {
      DecryptedIsAes(key, e, d, b);
    }
  }

  /** `f_encrypt` or `f_decrypt` of the block `b` at `i`. */
  method OneBlock(alg: AesContext, en: bool, src: array<bv8>, i: nat, pOut: array<bv8>, o: nat,
                  ghost key: Key, ghost b: Block)
    requires Ready(alg, en, key) && i + 16 <= src.Length && o + 16 <= pOut.Length && b == src[i..i + 16]
    modifies pOut
    ensures pOut[..o] == old(pOut[..o]) && pOut[o + 16..] == old(pOut[o + 16..])
    ensures pOut[o..o + 16] == Transform(en, key, b)
  {
    hide AreSchedules, Transform, Encrypted, Decrypted;
    TransformIs(alg.eKey[..], alg.dKey[..], en, key, b);
    if en {
      var r := alg.MyEncrypt(src, i, pOut, o);
    } else {
      var r := alg.MyDecrypt(src, i, pOut, o);
    }
  }

  /** The last, incomplete block of the input, followed by zeros. */
  method PadLast(pBuff: array<bv8>, pIn: array<bv8>, from: nat, nInlen: nat)
    requires pBuff.Length == 16 && pBuff != pIn && from < nInlen <= pIn.Length && nInlen < from + 16
    modifies pBuff
    ensures pBuff[..] == pIn[from..nInlen] + seq(from + 16 - nInlen, _ => 0)
  {
    var i, j := from, 0;
    while i < nInlen
      invariant from <= i <= nInlen && j == i - from
      invariant pBuff[..j] == pIn[from..i]
    {
      pBuff[j] := pIn[i];
      i, j := i + 1, j + 1;
    }
    while j < 16
      invariant nInlen - from <= j <= 16
      invariant pBuff[..j] == pIn[from..nInlen] + seq(j - (nInlen - from), _ => 0)
    {
      pBuff[j] := 0;
      j := j + 1;
    }
  }

  /** The arguments that `DoAes256` takes. */
  predicate Accepts(nInlen: int, nOutLen: int, bEncrypt: int) {
    && (bEncrypt == AES_EN || bEncrypt == AES_DE)
    && 0 < nInlen <= nOutLen && RoundUp(nInlen) <= nOutLen
  }

  /** Block `k` of the input. */
  method Step(alg: AesContext, en: bool, pIn: array<bv8>, nInlen: nat, pOut: array<bv8>, pBuff: array<bv8>, k: nat,
              ghost key: Key, ghost b: Block)
    requires Ready(alg, en, key) && HoldsBlock(pIn, nInlen, b, k) && 16 * k + 16 <= pOut.Length
    requires pBuff.Length == 16 && pBuff != pIn && pBuff != pOut
    modifies pOut, pBuff
    ensures pOut[16 * k + 16..] == old(pOut[16 * k + 16..])
    ensures pOut[..16 * k + 16] == old(pOut[..16 * k]) + Transform(en, key, b)
  {
    hide Ready, Transform;
    if k == nInlen / 16 && nInlen % 16 > 0 {
      PadLast(pBuff, pIn, 16 * k, nInlen);
      assert pBuff[0..16] == pBuff[..];
      OneBlock(alg, en, pBuff, 0, pOut, 16 * k, key, b);
    } else {
      OneBlock(alg, en, pIn, 16 * k, pOut, 16 * k, key, b);
    }
    assert pOut[..16 * k + 16] == pOut[..16 * k] + pOut[16 * k..16 * k + 16];
  }

  /** The output after `k` blocks of `input`, in a buffer that held `was`. */
  ghost predicate Done(out: seq<bv8>, en: bool, key: Key, input: seq<bv8>, k: nat, was: seq<bv8>)
    requires |input| % 16 == 0 && 16 * k <= |input| <= |was|
  {
    |out| == |was| && out[..16 * k] == EachBlock(en, key, input[..16 * k]) && out[16 * k..] == was[16 * k..]
  }

  lemma DoneStep(before: seq<bv8>, after: seq<bv8>, en: bool, key: Key, input: seq<bv8>, k: nat, was: seq<bv8>,
                 b: Block)
    requires |input| % 16 == 0 && 16 * k + 16 <= |input| <= |was| == |before| == |after|
    requires b == input[16 * k..16 * k + 16] && after[16 * k + 16..] == before[16 * k + 16..]
    requires after[..16 * k + 16] == before[..16 * k] + Transform(en, key, b)
    requires Done(before, en, key, input, k, was)
    ensures Done(after, en, key, input, k + 1, was)
  {
    hide Transform, EachBlock;
    EachBlockStep(en, key, input, k);
    assert before[16 * k + 16..] == before[16 * k..][16..] == was[16 * k + 16..];
  }

  /** One turn of the loop; what is still to be read of the input is as it was. */
  method Turn(alg: AesContext, en: bool, pIn: array<bv8>, nInlen: nat, pOut: array<bv8>, pBuff: array<bv8>, k: nat,
              ghost key: Key, ghost data: seq<bv8>, ghost was: seq<bv8>)
    requires Ready(alg, en, key) && nInlen == |data| <= pIn.Length && |Padded(data)| <= |was| && 16 * k < nInlen
    requires pBuff.Length == 16 && pBuff != pIn && pBuff != pOut
    requires Done(pOut[..], en, key, Padded(data), k, was)
    requires forall j | 16 * k <= j < nInlen :: pIn[j] == data[j]
    modifies pOut, pBuff
    ensures Ready(alg, en, key) && 16 * (k + 1) <= |Padded(data)| && Done(pOut[..], en, key, Padded(data), k + 1, was)
    ensures forall j | 16 * (k + 1) <= j < nInlen :: pIn[j] == data[j]
  {
    hide Ready, Transform, EachBlock, Padded, HoldsBlock, Done;
    ghost var before := pOut[..];
    assert |before| == |was| by { SameLength(before, en, key, Padded(data), k, was); }
    PaddedBlock(data, pIn, k);
    ghost var b := Padded(data)[16 * k..16 * k + 16];
    Step(alg, en, pIn, nInlen, pOut, pBuff, k, key, b);
    ghost var after := pOut[..];
    assert after[16 * k + 16..] == before[16 * k + 16..];
    assert after[..16 * k + 16] == before[..16 * k] + Transform(en, key, b);
    DoneStep(before, after, en, key, Padded(data), k, was, b);
    forall j | 16 * (k + 1) <= j < nInlen ensures pIn[j] == data[j] {
      assert pIn == pOut ==> pIn[j] == after[16 * k + 16..][j - (16 * k + 16)] == before[j];
    }
  }

  lemma SameLength(out: seq<bv8>, en: bool, key: Key, input: seq<bv8>, k: nat, was: seq<bv8>)
    requires |input| % 16 == 0 && 16 * k <= |input| <= |was| && Done(out, en, key, input, k, was)
    ensures |out| == |was|
  {
    hide EachBlock;
  }

  /** The loop over the blocks. */
  method Run(alg: AesContext, en: bool, pIn: array<bv8>, nInlen: nat, pOut: array<bv8>, ghost key: Key)
    returns (k: nat)
    requires Ready(alg, en, key) && 0 < nInlen <= pIn.Length && RoundUp(nInlen) <= pOut.Length
    modifies pOut
    ensures 16 * k == RoundUp(nInlen) && pOut[16 * k..] == old(pOut[16 * k..])
    ensures pOut[..16 * k] == EachBlock(en, key, Padded(old(pIn[..nInlen])))
  {
    hide Ready, Transform, EachBlock, Padded, Done;
    var blocks := nInlen / 16 + if nInlen % 16 > 0 then 1 else 0;
    var pBuff := new bv8[16];
    ghost var data := pIn[..nInlen];
    ghost var was := pOut[..];
    NothingDone(was, en, key, Padded(data));
    k := 0;
    while k < blocks
      invariant 0 <= k <= blocks && Ready(alg, en, key)
      invariant Done(pOut[..], en, key, Padded(data), k, was)
      invariant forall j | 16 * k <= j < nInlen :: pIn[j] == data[j]
    {
      Turn(alg, en, pIn, nInlen, pOut, pBuff, k, key, data, was);
      k := k + 1;
    }
    AllDone(pOut[..], en, key, Padded(data), k, was);
    assert pOut[..16 * k] == pOut[..][..16 * k] && pOut[16 * k..] == pOut[..][16 * k..];
  }

  lemma NothingDone(was: seq<bv8>, en: bool, key: Key, input: seq<bv8>)
    requires |input| % 16 == 0 && |input| <= |was|
    ensures Done(was, en, key, input, 0, was)
  {
    hide EachBlock;
    EachBlockStart(en, key, input);
  }

  lemma AllDone(out: seq<bv8>, en: bool, key: Key, input: seq<bv8>, k: nat, was: seq<bv8>)
    requires |input| % 16 == 0 && 16 * k == |input| <= |was| && Done(out, en, key, input, k, was)
    ensures |out| == |was| && out[..16 * k] == EachBlock(en, key, input) && out[16 * k..] == was[16 * k..]
  {
    hide EachBlock;
    assert input[..16 * k] == input;
  }

  /** `pIn` and `pOut` may be the same buffer. */
  method DoAes256(pIn: array<bv8>, nInlen: int, pOut: array<bv8>, nOutLen: int, pKey: array<bv8>, bEncrypt: int)
    returns (ret: int)
    requires nInlen <= pIn.Length && nOutLen <= pOut.Length && pKey.Length >= 16
    modifies pOut
    ensures !Accepts(nInlen, nOutLen, bEncrypt) ==> ret == 0 && pOut[..] == old(pOut[..])
    ensures Accepts(nInlen, nOutLen, bEncrypt) ==>
      && ret == RoundUp(nInlen)
      && pOut[..ret] == EachBlock(bEncrypt == 0, old(pKey[..16]), Padded(old(pIn[..nInlen])))
      && pOut[ret..] == old(pOut[ret..])
  {
    hide Cols, KeyWords, KeyExpansion, RoundKeys, IsInverseSchedule, EachBlock, Padded;
    if bEncrypt != AES_EN && bEncrypt != AES_DE {
      return 0;
    }
    if nInlen <= 0 || nOutLen <= 0 || nOutLen < nInlen {
      return 0;
    }
    if nInlen % 16 > 0 && nOutLen < (nInlen / 16 + 1) * 16 {
      return 0;
    }
    var alg := new AesContext();
    var r := alg.SetKey(pKey, 16, if bEncrypt == AES_EN then ENC else DEC);
    var k := Run(alg, bEncrypt == AES_EN, pIn, nInlen, pOut, pKey[..16]);
    return k * 16;
  }
}
