# Verified model of S-VPN

S-VPN is a small VPN: clients and a server exchange IP packets as UDP datagrams, each encrypted by
a byte substitution that is derived from an MD5 digest of the user's password and from the user's
id. The Windows client in the same repository carries the miniLZO compression library. This project
models these four parts and proves what they are for.

| part | files |
|---|---|
| LZO1X-1 compressor and its two decompressors, Adler-32 | `Bytes`, `LzoFormat`, `LzoMachine`, `LzoGrammar`, `LzoAcceptance`, `LzoRoundTrip`, `LzoWords`, `LzoParse`, `LzoSearch`, `LzoCompress`, `LzoDecompress`, `LzoSelfTest`, `Adler32` |
| MD5, incremental and one-shot | `Md5Spec`, `Md5Vectors`, `Md5`, `Md5Context` |
| key-dependent substitution tables | `Crypt` |
| server, client and the network between them | `Tunnel`, `TunnelRuns`, `TunnelSystem`, `SvpnServer`, `SvpnClient`, `FillNum` |

## Main results

* **Compression round trip.** `LzoCompress.Compress` writes, for every input and inside the documented
  buffer size, the stream `LzoParse.Compressed`: a function of the input and the word size, so neither
  the work memory nor what the output buffer held matters. It is one of the streams that
  `LzoFormat.Encodes` allows, which rests on nothing about the hash but its range.
  `LzoSearch` says what the search finds: the dictionary always holds the last position probed for each
  slot, and a run of one byte, up to a whole block long, becomes a single match.
  `LzoRoundTrip.StreamIsDecoded` shows that the decoder turns every such stream back into the input.
  The bytes are written with back-patching (the count of up to three trailing literals is OR-ed into
  the match before them) and read from left to right; `LzoRoundTrip.StreamSplits` connects the two.
* **The format.** `LzoGrammar` defines LZO1X streams by their bytes, apart from compressor and decoder,
  with the short matches the compressor never writes. `LzoAcceptance.AcceptsExactly`: the checked
  decoder accepts exactly these streams and yields what they stand for. Too little room, a match that
  reaches back too far and a missing end have the error codes of those names.
* **Decoder safety and agreement.** `LzoDecompress.Decompress` is the decoder text with its gotos as
  labels of a machine, with or without the overrun tests. On any stream the checked one terminates,
  writes exactly the bytes it reports, and does not depend on what the output buffer held. Where it
  succeeds, the unchecked one does the same. `LzoMachine.AcceptedStreamsArePrefixFree` and
  `LzoMachine.AcceptedStreamExtends` are about all streams, compressed or not.
* **MD5.** `Md5Vectors` ties the specification to the first test vector of RFC 1321. The 64 unrolled
  steps are the loop of section 3.4 of RFC 1321, and `Context.Update` and `Context.Final` compute the digest of sections 3.1 to 3.5 for every way of cutting a message into
  pieces. The guard of the block loop wraps around for pieces near 4 GiB: `Md5Context.GuardIsExact`
  gives the exact condition under which it does not, and `Md5Context.LoopEnds` shows that otherwise,
  and only then, the loop never ends; the least such input for a fresh context has 2^32 - 64 bytes.
* **Substitution tables.** For every key and id the table is a permutation that maps 0x45, the first
  byte of an IPv4 header, to the id; the key schedule never merges two keys. Every place of the table is
  traced back through the 256 exchanges of the key.
* **Tunnel.** `TunnelRuns.EveryRunIsOk` holds for any datagrams at all, `TunnelSystem.TunnelIsTransparent`
  for honest clients over a network that loses, repeats and reorders: what is read is sent, and every
  delivery has the right outcome. The server's check of the source
  address covers datagrams of 16 bytes and more; below that the end of what it compares is left over
  from an earlier packet. `Tunnel.ShortDatagramBorrowsSource` states what is compared, and
  `Tunnel.VerdictIgnoresBuffer` exactly when the old bytes do not matter.

## Model

| member | source | states |
|---|---|---|
| LzoRoundTrip.StreamIsDecoded | old-code/old/win32/Wtaet/minilzo.c:4194-4555 | for every parse of every input, the checked decoder run on the encoded stream returns LZO_E_OK, consumes all of it and yields exactly the input, whatever memory lies behind the stream |
| LzoRoundTrip.EncodingIsDecoded | old-code/old/win32/Wtaet/minilzo.c:3481-3516 | any stream the compressor may return for x decodes to x |
| LzoRoundTrip.EncodingIsInjective | old-code/old/win32/Wtaet/minilzo.c:3451-3518 | two different inputs never have a compressed stream in common |
| LzoRoundTrip.TruncationIsRejected | old-code/old/win32/Wtaet/minilzo.c:4204-4212 | no non-empty strict prefix of a compressed stream is accepted with LZO_E_OK |
| LzoRoundTrip.TrailingJunkIsReported | old-code/old/win32/Wtaet/minilzo.c:4551-4555 | a compressed stream followed by any non-empty bytes yields LZO_E_INPUT_NOT_CONSUMED and still x as output |
| LzoRoundTrip.StreamSplits | old-code/old/win32/Wtaet/minilzo.c:3247-3252 | the back-patched stream equals, before every instruction, the part already written with the count of the coming literals in its last match, followed by what a left-to-right reader still has to see |
| LzoGrammar.FormIsRead | old-code/old/win32/Wtaet/minilzo.c:4299-4464 | for every length and offset of the four forms read at the match label, two-byte matches among them, the branch chosen by the first byte recovers both, does not see an end marker, and finds the literal count in the low two bits of the second-to-last byte |
| LzoGrammar.MatchIsForm | old-code/old/win32/Wtaet/minilzo.c:4299-4464 | whatever the decoder reads as a match is written in the form its first byte announces |
| LzoGrammar.EndIsRead | old-code/old/win32/Wtaet/minilzo.c:4396-4420 | a far match of offset zero is the end marker, whatever its length field and low bits say |
| LzoRoundTrip.MatchBytesAreForm | old-code/old/win32/Wtaet/minilzo.c:3387-3443 | the compressor's M2, M3 and M4 encodings, with the count of the literals behind them, are those forms |
| LzoRoundTrip.MatchBytesAreShortest | old-code/old/win32/Wtaet/minilzo.c:3387-3443 | no form the decoder would read for the same match is shorter |
| LzoGrammar.HeaderIsRead | old-code/old/win32/Wtaet/minilzo.c:4204-4218 | the header of a literal run of any length is read back |
| LzoAcceptance.OpIsDecoded | old-code/old/win32/Wtaet/minilzo.c:4204-4543 | every part of a stream, literals or match, is decoded to what it stands for and leaves the decoder where the next part may begin |
| LzoAcceptance.AcceptsExactly | old-code/old/win32/Wtaet/minilzo.c:4145-4574 | the checked decoder returns LZO_E_OK with x and all input consumed if and only if the input is a stream of the format that stands for x and x fits the room |
| LzoAcceptance.StreamIsAccepted | old-code/old/win32/Wtaet/minilzo.c:4194-4555 | every stream of the format is accepted as what it stands for |
| LzoAcceptance.AcceptedStandsFor | old-code/old/win32/Wtaet/minilzo.c:4194-4555 | whatever is accepted is a stream of the format |
| LzoAcceptance.TooLittleRoomIsReported | old-code/old/win32/Wtaet/minilzo.c:4563-4566 | a stream of the format that stands for more than there is room for ends in LZO_E_OUTPUT_OVERRUN |
| LzoAcceptance.StrayStreamIsReported | old-code/old/win32/Wtaet/minilzo.c:4476-4572 | a match that reaches back before the output ends in LZO_E_LOOKBEHIND_OVERRUN, whatever follows |
| LzoAcceptance.BrokenOffStreamIsReported | old-code/old/win32/Wtaet/minilzo.c:4535-4560 | a stream that stops where a part or the end marker should begin ends in LZO_E_EOF_NOT_FOUND, one that stops around announced literals in LZO_E_INPUT_OVERRUN |
| LzoRoundTrip.LiteralStream | old-code/old/win32/Wtaet/minilzo.c:3481-3510 | an input without a match is written behind a special first byte up to 238 bytes and behind a run header beyond |
| LzoRoundTrip.StreamEnds | old-code/old/win32/Wtaet/minilzo.c:3512-3514 | every stream ends with the bytes 17, 0, 0 |
| LzoRoundTrip.RestIsParts | old-code/old/win32/Wtaet/minilzo.c:4299-4543 | from behind any match, the stream consists of parts of the format that rebuild exactly the rest of the input |
| LzoRoundTrip.StreamStandsFor | old-code/old/win32/Wtaet/minilzo.c:3451-3518 | whatever the parse, the compressed stream is one of the format and stands for the input |
| LzoRoundTrip.MatchIsReplayed | old-code/old/win32/Wtaet/minilzo.c:4469-4531 | copying a match of the parse appends exactly the input bytes it stands for, overlapping or not |
| LzoMachine.AcceptedStreamExtends | old-code/old/win32/Wtaet/minilzo.c:4551-4555 | any accepted stream, compressed or not, gives the same output with more room and with anything behind it, and is then reported as not consumed |
| LzoMachine.AcceptedStreamsArePrefixFree | old-code/old/win32/Wtaet/minilzo.c:4204-4212 | no stream accepted by the checked decoder is a proper prefix of another accepted one |
| LzoMachine.StepExtends | old-code/old/win32/Wtaet/minilzo.c:4204-4543 | a step of the decoder that stays inside its input is the same on every longer input |
| LzoMachine.CopyBackRepeats | old-code/old/win32/Wtaet/minilzo.c:4517-4521 | an extension of the output is what the overlapping byte-by-byte copy makes of it if and only if each new byte equals the one an offset before it |
| LzoDecompress.CopyMatch | old-code/old/win32/Wtaet/minilzo.c:4477-4521 | the four- and eight-byte copy loops equal the byte-by-byte overlapping copy and write nothing behind it |
| LzoDecompress.CopyInput | old-code/old/win32/Wtaet/minilzo.c:4221-4268 | the word loops for literals copy exactly the run |
| LzoDecompress.ReadCount | old-code/old/win32/Wtaet/minilzo.c:4357-4367 | the zero-byte run of a length field, with the end-of-input test in every round or without it |
| LzoDecompress.Decompress | old-code/old/win32/Wtaet/minilzo.c:4145-4574 | either decoder terminates with the machine's code and output, writes only the bytes it reports, and the unchecked one does so on every stream the checked one accepts |
| LzoParse.ExtendedMatchIsLongest | old-code/old/win32/Wtaet/minilzo.c:3311-3383 | comparing a word at a time: the match stays inside the block, its bytes are equal, and it is the longest unless the search came within the last 20 bytes, where it stops at the first whole word |
| LzoCompress.MatchLength | old-code/old/win32/Wtaet/minilzo.c:3311-3383 | the loop over the arrays computes that length |
| LzoWords.TrailingZerosCountBytes | old-code/old/win32/Wtaet/minilzo.c:3343-3363 | trailing zero bits of the XOR of two little-endian words, over eight, count the leading bytes that agree |
| LzoWords.LoadIsInjective | old-code/old/win32/Wtaet/minilzo.c:2161-2176 | words are equal exactly when their bytes are |
| LzoParse.TakenKeeps | old-code/old/win32/Wtaet/minilzo.c:3222-3240 | four equal bytes at the dictionary's candidate make a match of at least four bytes with an offset of at most 0xbfff inside the block; the literals before it reach back to the last match; the dictionary goes on holding positions of the block |
| LzoParse.Advance | old-code/old/win32/Wtaet/minilzo.c:3222-3449 | every round of the search keeps that and moves on |
| LzoParse.Enter | old-code/old/win32/Wtaet/minilzo.c:3180-3184 | the search enters a block far enough in for its first run to have at least four literals, whatever is left from the block before |
| LzoSearch.RoundRemembers | old-code/old/win32/Wtaet/minilzo.c:3234-3236 | each round puts its position into the slot of its four bytes and leaves all other slots alone |
| LzoSearch.RoundTakes | old-code/old/win32/Wtaet/minilzo.c:3222-3385 | where the remembered position has the same four bytes, the match with it is taken as far as it goes |
| LzoSearch.RoundSkips | old-code/old/win32/Wtaet/minilzo.c:3228-3239 | where it does not, the cursor moves on by one position, and by one more for each 32 literals since the last match |
| LzoSearch.DictionaryIsLastProbed | old-code/old/win32/Wtaet/minilzo.c:3234-3236 | after any number of rounds, each slot holds the last position probed for it in the block, or the start of the block |
| LzoSearch.SlotAndRestDetermineWord | old-code/old/win32/Wtaet/minilzo.c:3233-3234 | a slot is the top 14 bits of a product that can be undone, so each serves equally many words |
| LzoSearch.RunIsCompressed | old-code/old/win32/Wtaet/minilzo.c:3166-3518 | four bytes followed by n times the same one, 28 to 49148, compress to at most 36 + (n + 4)/255 bytes |
| LzoSearch.ShortInputStaysLiteral | old-code/old/win32/Wtaet/minilzo.c:3461-3516 | below 32 bytes the input is stored behind its length and before the end marker |
| LzoParse.NextBlock | old-code/old/win32/Wtaet/minilzo.c:3461-3470 | a block is searched unless 20 bytes or fewer are left or fewer than 32 are pending; it has 49152 bytes or all that is left |
| LzoParse.ParseOf | old-code/old/win32/Wtaet/minilzo.c:3451-3479 | block by block the chosen instructions cover the input without a gap, each match repeating the bytes it names |
| LzoParse.Compressed | old-code/old/win32/Wtaet/minilzo.c:3451-3518 | what the compressor returns is an encoding of the input |
| LzoCompress.Probe | old-code/old/win32/Wtaet/minilzo.c:3226-3239 | the lookup in the 16-bit dictionary, its update and the comparison of four bytes |
| LzoCompress.BodyUnfolds | old-code/old/win32/Wtaet/minilzo.c:3242-3443 | what each round of the block compressor adds, and that a run of one to three literals always has a match before it to be counted in |
| LzoCompress.BodySize | old-code/old/win32/Wtaet/minilzo.c:3242-3443 | the output for the first n bytes is at most n + n/16: each match saves the byte the literal header before it may cost |
| LzoCompress.EmitLits | old-code/old/win32/Wtaet/minilzo.c:3244-3310 | the over-wide literal stores stay inside the buffer and leave exactly the literals with their header or tag |
| LzoCompress.EmitMatch | old-code/old/win32/Wtaet/minilzo.c:3387-3443 | the stores of a match append exactly its encoding |
| LzoCompress.EmitTail | old-code/old/win32/Wtaet/minilzo.c:3481-3510 | the final literals with the header, tag or special first byte that the decoder expects there |
| LzoCompress.OrCount | old-code/old/win32/Wtaet/minilzo.c:3247-3249 | the back-patch of the second-to-last byte adds the literal count to its free bits and changes no other byte of the buffer |
| LzoCompress.SearchAt | old-code/old/win32/Wtaet/minilzo.c:3222-3449 | one round of the loop, stores included, is one round of the search and appends the encoding of the match it took |
| LzoCompress.CompressBlock | old-code/old/win32/Wtaet/minilzo.c:3166-3449 | a block is the whole search from a cleared dictionary, its encoding is appended, and the literals left over behind the last match are returned |
| LzoCompress.StreamSize | old-code/old/win32/Wtaet/minilzo.c:3451-3518 | every encoding of n bytes has at most n + n/16 + 4 bytes, so the documented room suffices |
| LzoCompress.Compress | old-code/old/win32/Wtaet/minilzo.c:3451-3518 | for every input the result is its compressed form, decided by the input and the word size alone, and never longer than n + n/16 + 64 + 3 |
| LzoSelfTest.RoundTrip | old-code/old/win32/Wtaet/testmini.cpp:123-180 | compressing and decompressing any bytes, with either decoder and either word size at each end, restores them |
| Adler32.Adler | old-code/old/win32/Wtaet/minilzo.c:2401-2430 | deferred reduction and unrolling give the byte-by-byte checksum of section 8.2 of RFC 1950 for every 32-bit start value; a null buffer gives 1 |
| Adler32.OneByte | old-code/old/win32/Wtaet/minilzo.c:2395-2399 | no 32-bit sum wraps around within 5552 bytes, and both stay congruent to the reduced sums |
| Adler32.NothingOverflows | old-code/old/win32/Wtaet/minilzo.c:2392-2393 | 5552 bytes of 255 from the largest 16-bit sums still fit 32 bits |
| Adler32.ChecksumContinues | old-code/old/win32/Wtaet/minilzo.c:2401-2430 | the checksum of x continued over y is the checksum of x followed by y |
| Adler32.ChecksumIs | old-code/old/win32/Wtaet/minilzo.c:2395-2430 | the closed form: the sum of the bytes and their sum weighted by distance from the end, each modulo 65521 and continued from the start value |
| Md5.MD5Transform | src/lib/md5.c:82-164 | the 64 unrolled macro calls equal the rotating-register loop of section 3.4 of RFC 1321 on every state and block |
| Md5.Encode | src/lib/md5.c:56-68 | low-order byte first, word by word |
| Md5.Decode | src/lib/md5.c:69-81 | the words RFC 1321 reads from a block |
| Md5.EncodedWordsDecode | src/lib/md5.c:56-81 | decoding an encoded array of words of any length gives it back |
| Md5.DecodedBytesEncode | src/lib/md5.c:56-81 | encoding the words decoded from any whole number of them gives the bytes back |
| Md5Spec.BlocksConcat | src/lib/md5.c:31-37 | absorbing a whole number of blocks and then the rest is absorbing everything |
| Md5Spec.PadLength | src/lib/md5.c:50-50 | the padding is 1 to 64 bytes and brings the length to 56 modulo 64 |
| Md5Spec.LengthFieldIs | src/lib/md5.c:49-49 | the eight bytes behind the padding are the length in bits modulo 2^64, low-order byte first |
| Md5Vectors.DigestOfEmpty | src/lib/md5.c:166-172 | the digest of the empty message is d41d8cd98f00b204e9800998ecf8427e |
| Md5Vectors.FChooses | include/md5.h:19-19 | F takes, bit by bit, its second argument where the first is set and the third elsewhere |
| Md5Vectors.GChooses | include/md5.h:20-20 | G takes its first argument where the third is set and the second elsewhere |
| Md5Vectors.ScheduleIs | src/lib/md5.c:90-157 | each round reads every word once, in the order RFC 1321 lists |
| Md5Context.CounterAdds | src/lib/md5.c:26-29 | the two count words with the carry found by comparison hold the bit count modulo 2^64 |
| Md5Context.CounterIndexes | src/lib/md5.c:24-24 | bits 3 to 8 of the low count word are the fill of the buffer |
| Md5Context.GuardIsExact | src/lib/md5.c:35-35 | the loop guard i + 64 <= inputlen means what it says, at every place the loop can look, if and only if inputlen plus the buffer fill (64 when empty) is below 2^32 |
| Md5Context.PieceIsBuffered | src/lib/md5.c:39-43 | a piece that does not complete the buffered block leaves the state and lengthens the buffer |
| Md5Context.RestIsBuffered | src/lib/md5.c:31-43 | otherwise what follows the last block boundary becomes the buffer |
| Md5Context.LoopEnds | src/lib/md5.c:35-36 | in 32-bit arithmetic some test of the loop guard fails, so that the loop ends, if and only if that condition holds |
| Md5Context.LargeInputNeverEnds | src/lib/md5.c:35-36 | an instance: with an empty buffer and 2^32 - 64 bytes every test of the guard passes |
| Md5Context.Context.Update | src/lib/md5.c:21-44 | the message grows by the piece, whenever the block loop ends at all; the state is the fold over its whole blocks, the buffer its tail, the counter its length |
| Md5Context.Context.Final | src/lib/md5.c:45-55 | the digest of RFC 1321 for the whole message |
| Md5Context.MD5Fast | src/lib/md5.c:166-172 | the digest of RFC 1321 in one call, for every length at which the block loop ends |
| Md5Context.DigestInPieces | src/lib/md5.c:21-55 | any cutting of a message of any length, above 4 GiB too, into updates that each end gives the same digest |
| Crypt.InverseOf47 | src/lib/crypt.c:23-24 | 207 undoes multiplication by 47 modulo 256 |
| Crypt.KeyRoundsAreUndone | src/lib/crypt.c:21-26 | any number of schedule rounds is a bijection of 16-byte states |
| Crypt.KeysStayApart | src/lib/crypt.c:21-26 | the state after k rounds determines the key |
| Crypt.KeyRoundIs | src/lib/crypt.c:21-26 | byte by byte, a round multiplies the byte and the carry into it by 47; only the last byte takes its carry unmultiplied |
| Crypt.ShuffledIsTraced | src/lib/crypt.c:27-29 | each place of the shuffled table holds what the exchanges of the schedule, traced from the last to the first, brought there |
| Crypt.ZeroKeyTable | src/lib/crypt.c:17-40 | a known answer: the table of the digest of zeros and id 0x44 |
| Crypt.EncodeTableIs | src/lib/crypt.c:31-40 | the identity search changes exactly two places of the shuffled table |
| Crypt.SearchSucceeds | src/lib/crypt.c:34-36 | the search for the identity stops before 256, at the place the inverse table names |
| Crypt.EncodeTableIsPermutation | src/lib/crypt.c:17-40 | for every key and identity the table has an inverse and maps 0x45 to the identity |
| Crypt.TranslationIsUndone | src/lib/crypt.c:45-65 | decryption undoes encryption, and the reverse, on buffers of any length |
| Crypt.CodeTable.BuildTable | src/lib/crypt.c:8-43 | the encode array is that permutation and the decode array its inverse |
| Crypt.Encrypt | src/lib/crypt.c:45-53 | byte-wise substitution, also in place |
| Crypt.Decrypt | src/lib/crypt.c:55-65 | byte-wise inverse substitution, also in place |
| Tunnel.AcceptedPacket | src/server/svpn_server.c:188-218 | for any datagram whatsoever: what is written belongs to an existing user named by the first byte, starts with 0x45 and, from 16 bytes on, carries that user's source address |
| Tunnel.AcceptanceIs | src/server/svpn_server.c:188-201 | a datagram of any length is accepted if and only if its first byte names a user and the source it carries, completed from the old buffer where it is too short, is that user's |
| Tunnel.LongDatagramStandsAlone | src/server/svpn_server.c:195-201 | from 16 bytes on, acceptance is decided by the datagram alone, not by what the buffers held |
| Tunnel.ShortDatagramBorrowsSource | src/server/svpn_server.c:195-201 | from 1 to 15 bytes, exactly what is compared: the up to three source bytes the datagram has, then the end of the source an earlier packet left in the buffer |
| Tunnel.VerdictIgnoresBuffer | src/server/svpn_server.c:195-201 | the verdict on a known user's datagram is independent of what the buffer held if and only if it has 16 bytes or the part of the source it carries is already wrong |
| Tunnel.SourceCheckSkipsShortDatagrams | src/server/svpn_server.c:195-201 | the source property does not extend to short datagrams: right behind an accepted packet its first byte alone is accepted |
| Tunnel.HonestPacketIsAccepted | src/server/svpn_server.c:188-218 | an honest packet encrypted by its client is attributed to it, accepted and restored |
| Tunnel.SocketLeaves | src/server/svpn_server.c:180-194 | what a datagram of any kind leaves in the two buffers |
| Tunnel.TunPacketIsSent | src/server/svpn_server.c:221-253 | a packet of any length is sent if and only if its user exists and sendto succeeds, and then encrypted, in full, to that user's address |
| Tunnel.TunLeaves | src/server/svpn_server.c:221-253 | what a packet leaves in the two buffers; no user changes |
| Tunnel.ClientSendsEverything | src/client/svpn_client.c:53-76 | whatever a client reads is sent so that its own table restores it |
| Tunnel.ServerPacketIsRestored | src/server/svpn_server.c:228-241 | what the server sends goes to the destination's user and decrypts there to the packet |
| Tunnel.ClientRestores | src/client/svpn_client.c:83-92 | a client writes a server packet to its tun device exactly when it is IP version 4; an empty datagram is judged by the old buffer |
| TunnelRuns.EveryRunIsOk | src/server/svpn_server.c:161-254 | in every run over any datagrams and packets: tables never change, each user's address is the source of its last accepted datagram, the totals are those of the log, and every accepted packet is attributed |
| TunnelRuns.SocketKeeps | src/server/svpn_server.c:180-219 | one socket step keeps all of that |
| TunnelRuns.TunKeeps | src/server/svpn_server.c:221-253 | one tun step keeps all of that |
| TunnelSystem.PacketsWereRead | src/server/svpn_server.c:221-253 | every datagram on the network comes from a packet that its client, or the server, read in an event of the run |
| TunnelSystem.ReadsAreSent | src/server/svpn_server.c:221-253 | every packet a client reads, and every one the server reads for a known user with sendto succeeding, is on the network from then on |
| TunnelSystem.DeliveriesAreLogged | src/server/svpn_server.c:180-219 | every delivery has one outcome, in the order of the run |
| TunnelSystem.TunnelIsTransparent | src/server/svpn_server.c:161-254 | in every run of server, honest clients and a network that loses, repeats and reorders: every read that must send does; every delivered client datagram is accepted and comes out as a packet its client read in an event of that run, under its name; every delivered server datagram comes out at its user as a packet the server read in one |
| TunnelSystem.ServerGetsKeeps | src/server/svpn_server.c:180-219 | delivering a client datagram to the server keeps the invariant |
| TunnelSystem.ServerReadsKeeps | src/server/svpn_server.c:221-253 | sending a packet from the server's tun device keeps it |
| TunnelSystem.ClientReadsKeeps | src/client/svpn_client.c:53-76 | a client sending a packet keeps it |
| TunnelSystem.ClientGetsKeeps | src/client/svpn_client.c:78-93 | delivering a server datagram to a client keeps it |
| SvpnServer.SvpnServer.OnSocket | src/server/svpn_server.c:180-219 | the socket branch on the server's own arrays and nodes is the socket step; other users' nodes are untouched |
| SvpnServer.SvpnServer.OnTun | src/server/svpn_server.c:221-253 | the tun branch is the tun step |
| SvpnServer.LoadUsers | src/server/svpn_server.c:334-378 | every listed id gets the tables of the MD5 digest of its first password, and no other id exists |
| SvpnServer.KeysAreThoseOfFirstLines | src/server/svpn_server.c:334-378 | every listed id, and no other, has as its key the digest of the password on its first line |
| SvpnClient.SvpnClient.OnTun | src/client/svpn_client.c:53-76 | the client's tun branch is its tun step |
| SvpnClient.SvpnClient.OnSocket | src/client/svpn_client.c:78-93 | the client's socket branch is its socket step |
| SvpnClient.Init | src/client/svpn_client.c:102-110 | the client's tables are those of its key and of its id cut to a byte |
| FillNum.Fill | src/server/svpn_server.c:50-90 | each place of the field holds the digit, comma or blank that the number has at that place, with a comma in every fourth place from the right |
| FillNum.FieldLooks | src/server/svpn_server.c:50-90 | blanks where the number has run out; before that a comma in every fourth place from the right and digits in all others |
| FillNum.FieldReadsBack | src/server/svpn_server.c:50-90 | a printed field reads back as the number modulo 10^d, d being the number of digit places |
| FillNum.FieldIsFull | src/server/svpn_server.c:50-90 | while the number lasts, every place that is not a comma's holds a digit |

## Modelling notes

* Pointers are indices into arrays; bytes are the integers 0 to 255. Fields that are shifted to
  disjoint bits before being OR-ed are added; the one OR whose operands are disjoint only because of
  an invariant, `op[-2] |= t`, is a bitwise OR with a proof.
* The gotos of the decoders become labels of a machine (`LzoMachine.Pc`). `checked` selects the text
  with or without the overrun tests, `wide` the AMD64 build with 8-byte words or the i386 build with
  4-byte words.
* `NEED_IP` subtracts unsigned numbers, so it passes once the read position is behind the end of the
  input. The model keeps that and lets the caller provide six readable bytes, of any content, behind
  the input.
* The server and client keep their packet buffers across iterations, so the bytes behind a short
  datagram are those of earlier packets.
* The previous contents of the buffers, the address of a user that was never heard from,
  the success of `sendto` and the arrival of datagrams are unconstrained.

## Left out

- LzoDecompress.Decompress: does not bound reads of input operands more tightly than six bytes behind the input; lengths are unbounded integers, so `255 * in_len + 4` is taken to fit `lzo_uint`, and look-behind pointers do not wrap around.
- LzoCompress.Compress: does not model pointer wrap-around in the block-size test, which leaves its other meaning, that fewer than 32 bytes are pending.
- Md5Context.Context.Update: has no result where the loop guard wraps around, because the loop does not end there, as `LoopEnds` shows; the reads behind the input on the way are not modelled.
- Md5Context.MD5Fast: likewise for lengths from 2^32 - 64 on.
- Md5Context.DigestInPieces: likewise for a piece that wraps the guard around.
- TunnelRuns.EveryRunIsOk: statistics are unbounded; the source keeps bytes in 64 bits and packets in 32.
- TunnelSystem.TunnelIsTransparent: the server's tun device delivers packets of 20 to 4096 bytes; a server datagram sent to a user's address before anything was heard from it may reach somebody else.
- SvpnServer.LoadUsers: starts from a list of (id, password) records with ids of one byte; reading the configuration text and ids outside 0 to 255 are not modelled.
- FillNum.Fill: numbers are non-negative.
- The non-deterministic dictionary branch of the compressor and all platform detection: other configurations.
- Assertions of the decoder that only exist in debug builds.
- Sockets, tun devices, `select`, signals, `ifconfig`: foreign calls.
- `output_info`: depends on clocks and files.
- The older server, the Windows and Android clients' own code: copies or incomplete.
- Strength of the cipher and of MD5: not a correctness property.
