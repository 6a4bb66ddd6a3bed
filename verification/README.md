# A verified model of the agent's cores

A Dafny model of the parts of a network agent that have hard laws of their own: its AES and MD5, the
collector of log files with its position file, the rewriter of network configuration files, the protobuf
message, the inspector, the NetFlow receiver, the two base64 codecs and the state line of the heartbeat.
`dafny verify dfyconfig.toml` checks everything.

## How it is laid out

| file | what it models |
|---|---|
| `AesTab.dfy`, `Gf.dfy`, `SBoxes.dfy` | the byte tables of AES, the field GF(2^8), and what ties them together |
| `Fips197.dfy` | the cipher of FIPS-197 on columns of bytes: the reference |
| `AesWords.dfy`, `Aes.dfy`, `DoAes.dfy` | 32-bit words and tables, the context with its two key schedules, the buffer driver |
| `Rounds.dfy`, `AesExample.dfy` | for which keys ten rounds are the whole cipher; the example of FIPS-197, step by step |
| `Md5Words.dfy`, `Md5Transform.dfy`, `Md5.dfy` | the macros on bits and numbers, the block transformation against section 3.4 of RFC 1321, the streaming context |
| `Md5Abc.dfy` | a digest of RFC 1321, step by step |
| `Text.dfy` | searching, splitting, lines and decimal numbers, shared by the files below |
| `PosFile.dfy`, `Collector.dfy`, `Handoff.dfy` | the position file, a pass over a log file, the hand-over to the reporter thread |
| `Ifcfg.dfy`, `IfcfgLines.dfy` | reading and rewriting of ifcfg files; what becomes of each line, by its characters |
| `Wire.dfy`, `Proto.dfy` | the Protocol Buffers wire format, the message |
| `Inspector.dfy` | policies over worker threads, sub-tasks between worker and reporter |
| `Netflow.dfy` | NetFlow v5 datagrams, the drain loop |
| `Base64.dfy`, `ModuleState.dfy` | the codecs, the heartbeat's state line |
| `Optional.dfy`, `Arith.dfy` | a value that may be missing, multiplication and division |

Code that changes state step by step is a class or a method with loops; each such method is proved against
functions, and the laws are lemmas about those functions. Protocols between threads are state machines with
one shared access a step, and their laws hold at every moment of every interleaving.

What is at the bottom of both a method and the function that it is proved against, such as a rotation, a macro, the
digits of a number or the order of bytes, has a law of its own that says what it is by bits, by index or as a number.
Two known answers, one for AES and one for MD5, fix the rest of the two standards.

## Where the code does not keep its promise

The code is modelled as it is. For each of these promises there is an input for which it fails, and the exact
condition under which it holds.

- `MD5Update` evaluates `i + 63 < inputLen` in 32 bits. Its block loop ends where it has to, and never reads beyond
  the input, if and only if the end of the last whole block plus 63 stays below 2^32 (`Md5.FitsExactly`). It fails
  for 2^32 - 1 bytes after a first one (`Md5.LongestAfterOneFails`); inputs of at most 2^32 - 64 bytes always fit
  (`Md5.ShortFits`).
- `my_encrypt` does ten rounds whatever the key length. For schedules of 10, 12 and 14 rounds it is the cipher of
  FIPS-197 under all round keys, for every block, if and only if there are ten (`Rounds.EncryptedIsCipher`); for
  each longer schedule there is a block on which they differ. `DoAes256` only uses the first 16 bytes of its key,
  so it is AES-128 (`DoAes.EncryptedIsAes`).
- A log file that does not end with a newline when a pass reads it has its last line torn. Two passes push the lines
  of the whole file if and only if the first part ends with a newline, or what follows is empty or begins with one
  (`Collector.TwoPasses`). It fails for `ab` followed by `c` and a newline (`Collector.TornLine`).
- A pass that is stopped is to be taken up by the next one. That starts at the same place if and only if the file was
  not shorter than recorded, or still is, or the recorded position is 0 (`Collector.NextPass`). In
  `Collector.CutAndGrown` a file was cut down and has grown to its recorded size again, and a line is lost.
- The rewriter of ifcfg files leaves the old file on every error but one: if the new file cannot be renamed after the
  old one was removed there is no file, and the new text is in the temporary one (`Ifcfg.ModifyIfcfgFile`).
- `Base64Encode` pads the data with `=` bytes instead of padding the text. Decoding gives the data back, and the text
  is that of RFC 4648, if and only if the length is a multiple of three (`Base64.WholeTriples`). It fails for the one
  byte `a` (`Base64.OneByteIsPadded`).
- `base64_encode` shifts signed characters and takes its input as a C string. Decoding gives the bytes back if and only
  if in each group of three nothing but NUL follows a NUL, and nothing but 255 precedes a byte from 128 on
  (`Base64.RoundTrip`). It fails for 65, 200, 66 and for 65, 0, 66 (`Base64.HighBytesAndNulsFail`).

## Model

| member | source | states |
|---|---|---|
| SBoxes.SBoxIsAffineOfInverse | crypt/aes.cpp:294-298 | Every entry of the S-box is the affine map of section 5.1.1 of FIPS-197 applied to a multiplicative inverse in GF(2^8), and the inverse S-box is the map back. |
| SBoxes.SBoxInverse | crypt/aes_tab.h:13-83 | The inverse S-box undoes the S-box on all 256 bytes. |
| Gf.FFmulForward | crypt/aes.cpp:272-273 | The multiplication macros for 2 and 3 are products in GF(2^8). |
| Gf.FFmulInverse | crypt/aes.cpp:274-277 | The multiplication macros for 9, 11, 13 and 14 are products in GF(2^8). |
| Gf.RconIsXPower | crypt/aes_tab.h:113-123 | Entry i of the round constants is x^i in GF(2^8), for the whole table. |
| Fips197.InvMixOfMix | crypt/aes.cpp:345-365 | The inverse column mix undoes the column mix. |
| Fips197.InvMixAdds | crypt/aes.cpp:418-426 | The inverse column mix is linear: it can be applied to a state and a round key one by one. |
| Fips197.ShiftRowsByIndex | crypt/aes.cpp:666-706 | Row r of column c comes from column c + r, modulo 4. |
| Fips197.MixColumnsByIndex | crypt/aes.cpp:345-365 | Each column is the product with the polynomial {03}x^3 + {01}x^2 + {01}x + {02} modulo x^4 + 1. |
| Fips197.SubBytesByIndex | crypt/aes.cpp:746 | Each byte alone goes through the S-box. |
| Fips197.AddRoundKeyByIndex | crypt/aes.cpp:746 | Each byte of the round key is added to its byte of the state. |
| Fips197.RotatedIsTurned | crypt/aes.cpp:410 | The rotation of a schedule word turns it left by one byte. |
| Fips197.InvCipherOfCipher | crypt/aes.cpp:938-1071 | Section 5.3 of FIPS-197: for every schedule of any number of rounds the inverse cipher undoes the cipher. |
| Fips197.EqInvCipherIsInvCipher | crypt/aes.cpp:615-637 | Section 5.3.5 of FIPS-197: on the mirrored schedule with mixed interior keys the equivalent inverse cipher is the inverse cipher. |
| AesWords.ColOfFwdRnd | crypt/aes.cpp:746 | A word of a four-table forward round is, as a column, substitution, mix and key addition of the four bytes it reads. |
| AesWords.ColOfInvRnd | crypt/aes.cpp:747 | The same for the inverse round, with the inverse substitution and mix. |
| AesWords.ColOfInvMcol | crypt/aes.cpp:418-419 | The table form of the inverse column mix is the inverse column mix. |
| AesWords.ColOfLsBox | crypt/aes.cpp:410-411 | `ls_box` with 3 is substitution after rotation, with 0 substitution alone. |
| Aes.NextWordInBlock | crypt/aes.cpp:542-613 | In the unrolled loops for every key length the word at index i is the one that the recurrence by i mod Nk and i / Nk demands, and the round constant is within its table. |
| Aes.ScheduleIsKeyExpansion | crypt/aes.cpp:542-613 | Words that meet the recurrence are the key expansion of section 5.2 of FIPS-197, for key lengths of 4 to 8 words. |
| Aes.ScheduleExpands | crypt/aes.cpp:542-613 | The words by their bytes, for all key lengths: byte j of word i is that of word i - Nk plus the S-box of byte j + 1 of word i - 1 and the round constant, or the S-box alone, or the byte itself. |
| Aes.BlockByIndex | crypt/aes.cpp:741-742 | Byte 4c + r of a block is in row r of column c. |
| Aes.AesContext.Expand4 | crypt/aes.cpp:544-551 | The loop for 4-word keys ends, stays within the schedule and makes it meet the recurrence. |
| Aes.AesContext.Expand5 | crypt/aes.cpp:552-566 | The same for 5 words. |
| Aes.AesContext.Expand6 | crypt/aes.cpp:567-581 | The same for 6 words. |
| Aes.AesContext.Expand7 | crypt/aes.cpp:582-598 | The same for 7 words. |
| Aes.AesContext.Expand8 | crypt/aes.cpp:599-612 | The same for 8 words. |
| Aes.AesContext.Mirror | crypt/aes.cpp:615-637 | The walk of the two pointers lands every round key in its mirrored slot of `d_key`, the interior ones mixed. |
| Aes.AesContext.SetKey | crypt/aes.cpp:513-640 | For all five key lengths `e_key` has, byte by byte, the key and what follows from it, which is the key expansion, and `d_key`, if asked for, is the mirrored schedule; on a bad length or direction nothing changes but the mode bits. |
| Aes.AesContext.FwdRounds | crypt/aes.cpp:959-967 | Nine unrolled table rounds on alternating states are nine rounds of the cipher. |
| Aes.AesContext.MyEncrypt | crypt/aes.cpp:938-1004 | With an even number of rounds the output block is the cipher of the input block under the first eleven round keys; all else in the buffer stays; also in place. |
| Aes.AesContext.MyDecrypt | crypt/aes.cpp:1006-1071 | The output block is the equivalent inverse cipher of the input block under `d_key`, for 10 to 14 rounds; also in place. |
| Rounds.OnlyTenRoundsAgree | crypt/aes.cpp:938-1004 | For any 11, 13 or 15 round keys: the cipher under the first eleven is that under all of them, for every state, if and only if there are eleven. |
| Rounds.EncryptedIsCipher | crypt/aes.cpp:938-1004 | What is computed under a schedule of 10, 12 or 14 rounds is the cipher of FIPS-197 under all its round keys, for every block, if and only if there are ten rounds. |
| AesExample.ExpansionAt | crypt/aes.cpp:542-613 | Each word of the key expansion from the words before it. |
| AesExample.EncryptedExample | crypt/aes.cpp:938-1004 | The example of appendix B of FIPS-197: the ciphertext of its block under its key. |
| DoAes.DecryptOfEncrypt | crypt/aes.cpp:938-1071 | For every 16-byte key and block, decryption undoes encryption. |
| DoAes.EncryptedIsAes | crypt/aes.cpp:938-1004 | With the schedule of a 16-byte key the table cipher is AES-128. |
| DoAes.DecryptedIsAes | crypt/aes.cpp:1006-1071 | With the mirrored schedule the table inverse cipher is AES-128 decryption. |
| DoAes.EncryptThenDecrypt | crypt/aes.cpp:513-1071 | The three calls in a row, in place on one buffer: the text in between is AES-128, and the block comes back. |
| DoAes.EachBlockInverse | crypt/aes.cpp:1102-1149 | Block by block decryption undoes block by block encryption of any number of whole blocks. |
| DoAes.EachBlockAt | crypt/aes.cpp:1102-1149 | Block k of the output is AES-128 of block k of the input, or its inverse, all under one key. |
| DoAes.BufferRoundTrip | crypt/aes.cpp:1077-1151 | Decrypting an encrypted buffer gives the input followed by zeros up to a multiple of 16. |
| DoAes.DoAes256 | crypt/aes.cpp:1077-1151 | Exactly when the arguments are accepted the return value is the length rounded up to 16, the output holds the padded input through the cipher and nothing beyond is written; otherwise nothing changes. Holds also when input and output are the same buffer. |
| Md5Words.BitsOfF | crypt/md5.cpp:57 | Where x has a 1 the result is y, elsewhere z. |
| Md5Words.BitsOfG | crypt/md5.cpp:58 | Where z has a 1 the result is x, elsewhere y. |
| Md5Words.BitsOfH | crypt/md5.cpp:59 | The result is the sum of the three, bit by bit. |
| Md5Words.BitsOfI | crypt/md5.cpp:60 | The result is y where x is 0 and z is 1, and y turned over elsewhere. |
| Md5Words.RotateIs | crypt/md5.cpp:64 | For all sixteen amounts in use: x 2^n + x / 2^(32 - n), modulo 2^32. |
| Md5Transform.StepFF | crypt/md5.cpp:69-73 | One `FF` is one operation of round 1 of section 3.4 of RFC 1321, written without the macros, with the roles of the registers rotated. |
| Md5Transform.Round1 | crypt/md5.cpp:183-199 | The sixteen `FF` lines are operations 0 to 15 of RFC 1321 on the registers. |
| Md5Transform.Round2 | crypt/md5.cpp:201-217 | The sixteen `GG` lines are operations 16 to 31. |
| Md5Transform.Round3 | crypt/md5.cpp:219-235 | The sixteen `HH` lines are operations 32 to 47. |
| Md5Transform.Round4 | crypt/md5.cpp:237-253 | The sixteen `II` lines are operations 48 to 63. |
| Md5Transform.MD5Transform | crypt/md5.cpp:177-263 | The state becomes the compression function of RFC 1321 of the old state and the block. |
| Md5Transform.Decode | crypt/md5.cpp:283-290 | A block as sixteen little-endian words. |
| Md5Transform.Encode | crypt/md5.cpp:268-278 | Words as little-endian bytes. |
| Md5Transform.WordIs | crypt/md5.cpp:283-290 | A word is the number that its four bytes are to base 256, the lowest first. |
| Md5Transform.BytesAre | crypt/md5.cpp:268-278 | And the bytes are the digits of the word. |
| Md5Abc.DigestOfAbc | crypt/md5.cpp:98-263 | The digest of `abc` is the one of section A.5 of RFC 1321. |
| Md5.CountStep | crypt/md5.cpp:120-124 | The two counter words with their carry stay the bit length mod 2^64 of what was fed. |
| Md5.CountWords | crypt/md5.cpp:117-118 | The buffer index from the low word is the number of bytes fed mod 64. |
| Md5.FitsExactly | crypt/md5.cpp:134-135 | The block loop, in 32 bits, ends where it has to if and only if its sum does not wrap around there, and exactly then it takes no block that reaches beyond the input. |
| Md5.LongestAfterOneFails | crypt/md5.cpp:134-135 | After one byte, 2^32 - 1 more do not fit: at the end of the input the loop goes on. |
| Md5.ShortFits | crypt/md5.cpp:113-146 | Every input of at most 2^32 - 64 bytes, and after whole blocks every input, meets that condition. |
| Md5.Md5Context.MD5Update | crypt/md5.cpp:113-146 | The invariant: state is the fold of the compression over the whole blocks of all bytes fed, buffer their tail, counters their length. |
| Md5.Md5Context.MD5Final | crypt/md5.cpp:151-173 | The digest of all bytes fed, with padding of sections 3.1 and 3.2 of RFC 1321 that ends on a block; the context is wiped. |
| Md5.PaddingIs | crypt/md5.cpp:156-166 | The padding byte by byte: 0x80, the fewest zeros that fill a block, the length. |
| Md5.FinalPadding | crypt/md5.cpp:156-166 | The padding and the encoded counters together are the padding of RFC 1321. |
| Md5.DigestOfChunks | crypt/md5.cpp:98-173 | However a message is split into updates, the digest is that of the whole message. |
| Md5.Md5Calc | crypt/md5.cpp:316-323 | The digest of its input, for every length its parameter can hold. |
| Md5.EncodeFile | crypt/bd_crypto_md5.cpp:97-130 | Fed in reads of up to 4096 bytes, the digest is that of all bytes read, and the result says whether the end was reached; for a file that does not open it is false and nothing is written. |
| Text.StringSplit | utils/bdstring.cpp:382-397 | Ends for every non-empty separator and appends exactly the pieces, with `btrim` exactly the non-empty ones, in order. |
| Text.JoinOfPieces | utils/bdstring.cpp:382-397 | The pieces join back to the source. |
| Text.PiecesAreFree | utils/bdstring.cpp:382-397 | No piece contains the separator. |
| Text.PiecesOfJoin | utils/bdstring.cpp:382-397 | Splitting undoes joining of pieces free of a one-character separator. |
| Text.NonEmptyIs | Plugin/filelog/FileLogMgr.cpp:650 | What is left of pieces or lines is each that is not empty, as often as it was there. |
| Text.UnlinesOfLines | Plugin/filelog/FileLogMgr.cpp:634 | The lines with a newline after each are the text, but for a missing one at its end. |
| Text.DecimalIs | Plugin/filelog/FileLogMgr.cpp:433-434 | The digits of a number by their decimal places, none too many. |
| PosFile.InfoParses | Plugin/filelog/FileLogMgr.cpp:475-480 | The two numbers, padded with blanks to 80, read back, negative ones too. |
| PosFile.BaseNameIs | Plugin/filelog/FileLogMgr.cpp:429 | A `/` stands before the name unless it is the whole path, and none in it. |
| PosFile.RenderOfUpdate | Plugin/filelog/FileLogMgr.cpp:449-454 | Overwriting 80 characters at a record's mark gives the file with that record's numbers replaced and all else byte for byte the same. |
| PosFile.OffsetsStay | Plugin/filelog/FileLogMgr.cpp:449-454 | Overwriting numbers moves no record, so marks stay valid. |
| PosFile.PositionFile.MarkPos | Plugin/filelog/FileLogMgr.cpp:425-455 | The file as a map: the name's pair is replaced, or a new record appended; the characters that are written, and where; every valid mark stays valid. |
| PosFile.PositionFile.ReadPos | Plugin/filelog/FileLogMgr.cpp:457-491 | Finds a name exactly if it is in the map, and then gives its last marked pair and a valid mark. |
| PosFile.PositionFile.InitPosFile | Plugin/filelog/FileLogMgr.cpp:405-420 | Every log file gets a record at (0, 0) unless it has one, which it keeps. |
| Collector.Collector.CollectFile | Plugin/filelog/FileLogMgr.cpp:604-663 | A pass pushes exactly the non-empty lines from the resume point to the end and records the size of the file twice, unless nothing was left; at each of its moments the record is the one it found, or one made after a multiple of 1000 lines or at the end, from which the next pass skips nothing and repeats at most 1000 lines. A record beyond the end pushes nothing. |
| Collector.LogLinesAre | Plugin/filelog/FileLogMgr.cpp:633-656 | The lines of a text are those between its newlines; those pushed are all that are not empty. |
| Collector.TwoFiles | Plugin/filelog/FileLogMgr.cpp:617-663 | A pass over any file and then over any other: a shorter one is read from its start, any other from where the first pass ended. |
| Collector.NextPass | Plugin/filelog/FileLogMgr.cpp:604-656 | Whatever was appended by then, after a stop at any moment the next pass starts at the same place exactly unless a file shorter than recorded no longer is; what it pushes completes what was pushed, with at most 1000 lines twice, exactly if it does not start within a line. |
| Collector.CutAndGrown | Plugin/filelog/FileLogMgr.cpp:617-626 | A file of five bytes that was cut and then grew to six: one of its lines is never pushed. |
| Collector.Passes | Plugin/filelog/FileLogMgr.cpp:576-667 | Over any number of passes on a growing file that ends in a newline, each non-empty line is pushed exactly once, in order. |
| Collector.LogLinesSplit | Plugin/filelog/FileLogMgr.cpp:633-656 | The lines of two texts are those of their concatenation if and only if the cut is at a line end or what follows is empty or begins with one. |
| Collector.TwoPasses | Plugin/filelog/FileLogMgr.cpp:604-663 | Two passes of the collector, with anything appended in between, push the lines of the whole file under exactly the same condition. |
| Collector.TornLine | Plugin/filelog/FileLogMgr.cpp:633-656 | The line `abc` in two pieces becomes two lines. |
| Handoff.CollectorKeepsInv | Plugin/filelog/FileLogMgr.cpp:633-657 | Every step of the collector keeps the invariant and leaves the vector alone while the flag is up. |
| Handoff.ReporterKeepsInv | Plugin/filelog/FileLogMgr.cpp:508-551 | Every step of the reporter keeps the invariant and leaves the vector alone while the flag is down. |
| Handoff.RunKeepsInv | Plugin/filelog/FileLogMgr.cpp:499-657 | The invariant holds at every moment of every interleaving. |
| Handoff.NothingLost | Plugin/filelog/FileLogMgr.cpp:508-551 | Reported lines are a prefix of the pushed ones, between reports the vector is the rest, and all lines read were pushed but the one in hand. |
| Handoff.Exclusive | Plugin/filelog/FileLogMgr.cpp:510-550 | The collector changes the vector only while the flag is down, the reporter reads and clears it only while it is up. |
| Handoff.Bounded | Plugin/filelog/FileLogMgr.cpp:125-129 | The vector never exceeds the loaded `nReadLineNum` in any interleaving, whatever was configured. |
| Handoff.RaisedWhenFull | Plugin/filelog/FileLogMgr.cpp:651-655 | Within a file the flag goes up exactly when the vector has as many lines as were asked for. |
| Ifcfg.BdTrimLeft | utils/bd_common.cpp:64-76 | The text from its first character that is not blank on, where bytes from 128 on count as blank. |
| Ifcfg.BdTrimRight | utils/bd_common.cpp:92-108 | The text up to its last character that is not blank. |
| Ifcfg.BdSplit | utils/bd_common.cpp:145-163 | The pieces between the separators, in order. |
| Ifcfg.KeyOfEntry | Jni/bd_jni_network.cpp:250-274 | The reader, which trims before it splits, and the rewriter, which splits before it trims, find the same key in every line. |
| Ifcfg.InitMap | Jni/bd_jni_network.cpp:219-286 | A key reads as what the map held already, else as the first entry of the file for it; -1 exactly for no path, no file or an empty map. |
| Ifcfg.RewriteLine | Jni/bd_jni_network.cpp:462-507 | What one line becomes, and which key the map loses. |
| Ifcfg.ModifyIfcfgFile | Jni/bd_jni_network.cpp:433-542 | The new file is the rewritten lines and then what is left of the map, each key once; 0 exactly if everything succeeds; on an error the file stays, unless the new one cannot be renamed after the old one was removed. |
| Ifcfg.LookupModified | Jni/bd_jni_network.cpp:454-521 | For any lines, duplicate keys too: after rewriting, a key of the map reads as its value, or not at all if that is empty, and any other key as before. |
| Ifcfg.ReadAfterModify | Jni/bd_jni_network.cpp:219-521 | The same for whole files. |
| Ifcfg.ModifyTwice | Jni/bd_jni_network.cpp:433-521 | Modifying again with the same map writes the same lines. |
| IfcfgLines.BlankIsSigned | utils/bd_common.cpp:64-76 | A blank is a signed character of at most 32. |
| IfcfgLines.EntryOfText | Jni/bd_jni_network.cpp:250-274 | An entry with any blanks around key and value reads as the two. |
| IfcfgLines.KeyIs | Jni/bd_jni_network.cpp:466-492 | Which lines have which key, by their characters. |
| IfcfgLines.ModifiedByLine | Jni/bd_jni_network.cpp:454-521 | The new file line by line, each by itself and the lines before it: what stands for a line, and which entries are left for the end. |
| IfcfgLines.OthersStay | Jni/bd_jni_network.cpp:462-507 | Comments, lines without `=` and entries for other keys are in the new file, unchanged and in their order, and no other such lines. |
| IfcfgLines.CommentsStay | Jni/bd_jni_network.cpp:472-486 | A line with a `#` first or without `=` is one of them. |
| Ifcfg.AskedByPlace | Jni/bd_jni_network.cpp:349-386 | The key of each of the seven fields, and the protocol that follows from the second. |
| Ifcfg.OnlyTheseAsked | Jni/bd_jni_network.cpp:349-386 | A request asks for no other key. |
| Ifcfg.GetModityIfcfgInfo | Jni/bd_jni_network.cpp:341-386 | Each field of the request, trimmed, under the key of its place, and the protocol that follows from the address. |
| Ifcfg.AskedIsFit | Jni/bd_jni_network.cpp:341-386 | All that a request without line ends asks for fits the lines of a file. |
| Ifcfg.ModifyIfcfg | Jni/bd_jni_network.cpp:309-337 | From request to file: every key reads back as asked for, or as before if the request does not name it; the return code and what each failure leaves behind. |
| Wire.VarintIsBase128 | probuf/socmsg.pb.cpp:598-640 | What is written for a number are its digits to base 128, the lowest first, all but the last with the high bit. |
| Wire.GroupsAreBase128 | probuf/socmsg.pb.cpp:402-404 | What is read of any bytes are the digits up to the first byte without that bit; nothing is read exactly when there is none in reach. |
| Wire.ReadOfVarint | probuf/socmsg.pb.cpp:402-404 | A 64-bit number reads back from its varint, whatever follows. |
| Wire.ReadTagTakes | probuf/socmsg.pb.cpp:393 | A tag is the low 32 bits of such a number, and 0 if there is none. |
| Wire.ReadBytesTakes | probuf/socmsg.pb.cpp:538-562 | A text is a number and as many bytes as its low 32 bits say. |
| Wire.SkipTakes | probuf/socmsg.pb.cpp:575-580 | Eight and four bytes for the wire types 1 and 5; 4, 6 and 7 are refused. |
| Wire.SkipTakesNumber | probuf/socmsg.pb.cpp:575-580 | A number for the wire type 0, modulo 2^64. |
| Wire.EmitIs | probuf/socmsg.pb.cpp:659-662 | How each kind of kept field is written. |
| Wire.SkipOfBody | probuf/socmsg.pb.cpp:575-580 | A field that nobody knows, groups too, reads back from what is written for it, whatever follows. |
| Wire.SkipFits | probuf/socmsg.pb.cpp:575-580 | All that is kept of any input can be written again. |
| Proto.TagsAre | probuf/socmsg.pb.cpp:398-566 | The eleven tags. |
| Proto.NumberBytes | probuf/socmsg.pb.cpp:594-640 | The bytes of a number field: its tag and the digits to base 128. |
| Proto.TextBytes | probuf/socmsg.pb.cpp:642-652 | The bytes of a text field: its tag, the length, the text. |
| Proto.WrittenInOrder | probuf/socmsg.pb.cpp:594-666 | The fields in the order of their numbers, the extension, then what nobody knows. |
| Proto.NumberRead | probuf/socmsg.pb.cpp:400-566 | What a number in the input does to its member: it replaces the value, with as many bits as the member has. |
| Proto.EnumeratorRead | probuf/socmsg.pb.cpp:428-534 | The same for an enumeration, and what is kept if there is no such enumerator. |
| Proto.SignKept | probuf/socmsg.pb.cpp:428-534 | An enumerator that is kept is the same signed number in 64 bits. |
| Proto.EnumeratorsAre | probuf/socmsg.pb.cpp:146-256 | The enumerators of the four enumerations. |
| Proto.MergedField | probuf/socmsg.pb.cpp:843-881 | Each field of a merge is that of the second message, or of the first if the second has none. |
| Proto.ParseOfSerialize | probuf/socmsg.pb.cpp:388-666 | Parsing what was written for a message merges it into the target and goes on with what follows. |
| Proto.RoundTrip | probuf/socmsg.pb.cpp:388-666 | Every message, unknown fields too, reads back with the same fields set. |
| Proto.Concatenation | probuf/socmsg.pb.cpp:594-881 | Two written messages in a row parse to the second merged into the first. |
| Proto.ParsedIsOk | probuf/socmsg.pb.cpp:388-592 | Whatever bytes arrive, a parsed message has only values of its types and unknown fields that no member can hold. |
| Proto.ParseAgain | probuf/socmsg.pb.cpp:388-666 | So writing any message that was parsed, from any bytes, and parsing it again gives the same message. |
| Proto.ParseBefore | probuf/socmsg.pb.cpp:388-592 | A text that parses to its end is a prefix from which parsing goes on with what follows. |
| Proto.ParseMerges | probuf/socmsg.pb.cpp:388-592 | Parsing any text into a message is merging what the text says into it, and fails alike. |
| Proto.ParseOfConcatenation | probuf/socmsg.pb.cpp:388-881 | For any two texts, fields in any order: their concatenation parses to the merge of what they parse to. |
| Proto.ExpectTag | probuf/socmsg.pb.cpp:412-566 | When the byte that the fast path looks for follows, the plain loop goes to the same field. |
| Proto.Message.ParseField | probuf/socmsg.pb.cpp:400-566 | The code behind each label: the member and its has-bit are set, or an enumerator that does not exist is kept as unknown. |
| Proto.Message.MergePartialFromCodedStream | probuf/socmsg.pb.cpp:388-592 | The chain of labels accepts and decodes on every input exactly what the plain tag loop does, whether or not its look-ahead sees the next tag. |
| Proto.Message.SerializeWithCachedSizes | probuf/socmsg.pb.cpp:594-666 | The set fields in order of number, the extension, then the unknown fields. |
| Proto.Message.ByteSize | probuf/socmsg.pb.cpp:745-829 | The size is the number of bytes that serialization writes. |
| Proto.Message.MergeFrom | probuf/socmsg.pb.cpp:843-881 | The message is the merge of both; the argument stays. |
| Proto.Message.Clear | probuf/socmsg.pb.cpp:348-386 | Nothing is set any more and every member holds its default, though members are reset only if one of their bits is set. |
| Proto.Message.IsInitialized | probuf/socmsg.pb.cpp:895-900 | True exactly when both required fields are set. |
| Inspector.EachPolicyOnce | Plugin/inspector/InspectorMgr.cpp:211-362 | With ceil(n / k) workers every policy is visited by exactly one worker, and each worker has at least one policy and at most k, in ascending order. |
| Inspector.Visit | Plugin/inspector/InspectorMgr.cpp:362 | The loop of one worker visits its stripe. |
| Inspector.StepKeepsInv | Plugin/inspector/InspectorMgr.cpp:320-383 | Every step of worker and reporter keeps the invariant of all seven sub-tasks. |
| Inspector.RunKeepsInv | Plugin/inspector/InspectorMgr.cpp:310-577 | The invariant holds at every moment of every interleaving. |
| Inspector.OnceIsReportedOnce | Plugin/inspector/InspectorMgr.cpp:326-336 | Of a one-shot policy each sub-task is reported at most once and executed at most twice. |
| Inspector.EveryResultIsSent | Plugin/inspector/InspectorMgr.cpp:320-383 | The reports of a sub-task are its results, each once and in order, up to the last one. |
| Inspector.NothingOverwritten | Plugin/inspector/InspectorMgr.cpp:320-383 | A result is only overwritten after it was reported, and never while the reporter is at it. |
| Inspector.SevenInTurn | Plugin/inspector/InspectorMgr.cpp:367-577 | In every interleaving the worker goes through all seven sub-tasks, round after round, and leaves each with its flag up. |
| Inspector.SweepsAreWhole | Plugin/inspector/InspectorMgr.cpp:324-336 | Each sweep of the reporter passes each sub-task that there was at its start once. |
| Inspector.PassedIsSent | Plugin/inspector/InspectorMgr.cpp:324-336 | What it passes was sent, or had no result, or was a one-shot that was sent before. |
| Netflow.FlowInImage | Plugin/netflow/NetflowUdp.cpp:94-181 | All fields of a flow read back from its 48 bytes. |
| Netflow.ImageOfFlowIn | Plugin/netflow/NetflowUdp.h:58-80 | The 48 bytes are the image of what is read from them. |
| Netflow.AcceptedIs | Plugin/netflow/NetflowUdp.cpp:47-86 | Which datagrams are accepted, by the bytes of the header. |
| Netflow.RecordAt | Plugin/netflow/NetflowUdp.cpp:61-184 | Every field of record i by the bytes of the datagram at 24 + 48 i. |
| Netflow.RecordsOfDatagram | Plugin/netflow/NetflowUdp.cpp:42-194 | Whatever flows an exporter sends, its datagram is accepted and becomes their records, in order. |
| Netflow.DurationKept | Plugin/netflow/NetflowUdp.cpp:141-151 | The record's times differ by the flow's duration mod 2^32. |
| Netflow.NetUdpClientService.Begin | Plugin/netflow/NetflowUdp.cpp:42-91 | What is to be appended after the checks: the records of exactly a datagram of 24 + 48 * count bytes with at least one flow, or nothing. |
| Netflow.NetUdpClientService.AppendOne | Plugin/netflow/NetflowUdp.cpp:91-193 | One pass of the loop, with the mutex taken once: the next record goes to the end of the queue. |
| Netflow.NetUdpClientService.HandleInput | Plugin/netflow/NetflowUdp.cpp:42-197 | Without interruption, an accepted datagram appends its records; any other leaves the queue as it is. |
| Netflow.NetflowMgr.Drain | Plugin/netflow/NetflowMgr.cpp:791-1051 | A sweep takes a prefix of the queue, reports exactly its unfiltered records in order, at most nBreakCtrl + 1, and stops early only after as many. |
| Netflow.NetflowMgr.Serve | Plugin/netflow/NetflowMgr.cpp:785-1051 | For every interleaving of the receiver, which takes the mutex once for each record, with the looks and sweeps of the report loop: received is taken followed by queued, reported is what of the taken passes the filters, and received with what is still to be appended is what the accepted datagrams hold, in order of arrival. |
| Netflow.NetflowMgr.Partition | Plugin/netflow/NetflowMgr.cpp:789-1051 | Each record received was reported, filtered or is queued, and counted once. |
| Netflow.NetflowMgr.ReportedIs | Plugin/netflow/NetflowMgr.cpp:805-840 | Which of the taken records are reported, by the three filter lists. |
| Base64.AlphabetIs | crypt/base64.cpp:7-82 | The alphabet of RFC 4648. |
| Base64.QuadIsBase64 | crypt/base64.cpp:26-36 | Three bytes as one number in four digits of that alphabet. |
| Base64.TripleIsBase256 | crypt/base64.cpp:147-163 | Four digits as three bytes: the same number. |
| Base64.PlacesAt | crypt/base64.cpp:45-60 | Each character of the source becomes its index, as far as all are of the alphabet. |
| Base64.Base64Encode | crypt/base64.cpp:9-43 | The text is that of section 4 of RFC 4648 for the data filled up with `=` bytes. |
| Base64.Base64Decode | crypt/base64.cpp:45-69 | The source is mapped in place up to the first character outside the alphabet, and the bytes are those of its groups. |
| Base64.DecodeOfEncode | crypt/base64.cpp:9-69 | For all data: decoding gives the data with the `=` bytes of the encoder. |
| Base64.WholeTriples | crypt/base64.cpp:9-69 | Decoding gives the data itself, and the text is that of RFC 4648 for it, if and only if the length is a multiple of three. |
| Base64.OneByteIsPadded | crypt/base64.cpp:9-43 | For the byte `a` the text is `YT09` instead of `YQ==`. |
| Base64.EncodeThenDecode | crypt/base64.cpp:9-69 | Both calls one after the other. |
| Base64.EncodeString | crypt/base64.cpp:85-121 | The text of all groups, each as far as its first NUL, with signed shifts. |
| Base64.DecodeString | crypt/base64.cpp:124-166 | The bytes of all groups of four characters. |
| Base64.RoundTrip | crypt/base64.cpp:85-166 | Decoding gives the data back, followed by zeros to a multiple of three, if and only if every group is plain. |
| Base64.HighBytesAndNulsFail | crypt/base64.cpp:85-166 | 65, 200, 66 comes back as 255, 200, 66, and 65, 0, 66 as 65, 0, 0. |
| Base64.TextIsPlain | crypt/base64.cpp:85-121 | Bytes from 1 to 127 are plain, and their text is that of section 4 of RFC 4648. |
| ModuleState.GetModuleStateString | Agent/BDScModuleMgr.cpp:615-632 | Every module's state is refreshed, and the line is their records with the last character gone. |
| ModuleState.LineAndLast | Agent/BDScModuleMgr.cpp:615-632 | For any separators: the line and the character that was cut off are the records with a separator after each. |
| ModuleState.RecordsOfLine | Agent/BDScModuleMgr.cpp:615-632 | Splitting the line by record, with or without `btrim`, gives the records. |
| ModuleState.FieldsOfRecord | Agent/BDScModuleMgr.cpp:624 | Splitting a record by field gives the number and the state. |
| ModuleState.ReadBack | Agent/BDScModuleMgr.cpp:615-632 | With two different separators of one character that is not a digit, the line reads back to all numbers and states. |

## Left out

- ZeroMQ, ACE, sockets, child processes, JNI, GeoIP, OpenVAS, logging, compression: foreign calls.
- Configuration loading and the other plug-ins that repeat the same manager skeleton.
- Aes: the word tables are their formulas in `gen_tabs`, not their literals; the byte tables and the round constants are literal. Words are little-endian, the block is 16 bytes. The unrolled loading of key words is a loop.
- Aes.AesContext.MyEncrypt: does not say what comes out for an odd number of rounds, because the first round then reads a state that was never written; for 12 and 14 rounds it is the ten-round cipher that the code computes.
- Aes.AesContext.MyDecrypt: asks for 10 to 14 rounds, which `set_key` establishes; a context that was never given a key is not modelled.
- Md5.Md5Context.MD5Update: asks for an input for which its 32-bit loop test does not wrap around, because the loop reads beyond its input otherwise (`Md5.FitsExactly`); what it finds there is not modelled, and the input does not overlap the context.
- PosFile.PositionFile.MarkPos: a write is taken to be in the file when the call returns; buffering, sharing of the file and I/O errors are not modelled. The separator is one character that is no digit, sign or blank, a name has no newline and is not 80 characters long.
- PosFile.PositionFile.InitPosFile: creation of the directory and the file is not modelled.
- Collector.Collector.CollectFile: large-log mode only, on a file that does not change during the pass and opens, with a name that fits the position file; backup, the listing of files and the wait for the reporter (see `Handoff`) are not part of it. Lines in memory when the process stops are not claimed as delivered.
- Handoff, Inspector: shared accesses are taken one at a time in program order; data races in the sense of the C++ standard, thread start-up and shutdown are not modelled. Whether a policy is due (`check_cron`) is left open, and liveness is not claimed.
- Inspector: what the probes of a sub-task do, and the report text, are not modelled; a result is any non-empty string.
- Ifcfg.ModifyIfcfgFile: writes that fail half-way and the access rights of the new file are not modelled; the order of the keys left in the map is left open.
- Ifcfg.GetModityIfcfgInfo: asks for at most seven fields, because the loop of the source tests the fields alone and runs past its keys otherwise. The map is new, as at its one call.
- Ifcfg.ModifyIfcfg: the check of the device name is a parameter, and there is one file, that of the device.
- Wire, Proto: the Protocol Buffers library is not part of this model; varints, tags, groups and skipping follow its encoding and what its parser accepts, with the depth of groups as a parameter. `register_sn` is the one registered extension. UTF-8 warnings, the array form of serialization, reflection and sizes beyond 32 bits are left out.
- Proto.Message.ParseField: does not say what a text member holds after a failed read.
- Netflow: the report text, private address classes and geography are left out; of the names only those of protocols, which the filter compares, are modelled. The list never reaches its maximal size. The report loop looks at its length without the mutex; the data race in the sense of the C++ standard is not modelled.
- Netflow.NetflowMgr.Drain: does not claim that the trigger of the loop ever fires.
- Base64.Base64Decode: asks for a length that is a multiple of four, because the code runs over its buffers otherwise.
- Base64.DecodeString: asks for characters of the alphabet and `=`, because the search of the source does not end for others. The four characters of a group are joined in one 24-bit number, without the wider bits of `long`.
- ModuleState.GetModuleStateString: the lock, and the fixed buffer of 50 characters for one record, are not modelled.
- `isInnerIP`, `loadingstat`, `check_cron`, `strtrim`, character set conversion and time formatting: easy, or without a law worth stating.
