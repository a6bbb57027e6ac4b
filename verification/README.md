# Verified models of libopenspotify

A Dafny model of the byte-level and data-structure machinery under the Spotify client: the encrypted packet transport, the
seekable decryption of a track, SHA-1, the base-62 ids, the XML tree and its codecs, the metadata cache with its garbage
collection, the request list shared by two threads, and the channels with the batched browsing on top of them. Each file of
the model follows one C file; methods are written the way the C functions run (in-place arrays, linked lists, loops), and what
they promise is stated against independent definitions whose laws are proved as lemmas.

`dafny verify dfyconfig.toml` checks the project.

| file | models |
|---|---|
| Shannon.dfy, Buf.dfy, Packet.dfy | shn.c, buf.c, packet.c |
| ShannonKeys.dfy, ShannonExample.dfy | what different keys, nonces and texts leave in the cipher's registers; a worked example of shn.c |
| AesSpec.dfy, AesStandard.dfy, Aes.dfy | FIPS 197 over an open S-box, its S-box and its example, aes.c |
| CtrMode.dfy, Rbuf.dfy, Player.dfy | counter mode of NIST SP 800-38A, rbuf.c, the read path of player.c |
| Sha1Spec.dfy, Sha1Example.dfy, Sha1.dfy | FIPS 180-4, the digest of "abc", sha1.c |
| BaseConvert.dfy | the id conversions of sp_link.c, the hexadecimal conversions of util.c |
| EzxmlTree.dfy, EzxmlCodec.dfy, EzxmlUtf.dfy | ezxml.c |
| Hashtable.dfy, Tracks.dfy | hashtable.c, the track cache of sp_track.c |
| Scoreboard.dfy, Requests.dfy | request.c, the scan and the gate of iothread.c, the event loop of sp_session.c |
| Channels.dfy, Browse.dfy | channel.c, browse.c |
| Basics.dfy, Words.dfy | shared notions; bytes, words and their numbers |

## What was found

* `ezxml_insert` leaves two tags of one name in the list of first tags exactly when a tag is inserted before the current first
  child and has that child's name (`Insert`, `ClashExample`). Appending, as the parser does, never meets the case (`AddChild`).
* `rbuf_write` changes bytes it was not asked to write exactly when it starts beyond what its region holds (`WriteIsExact`).
  `rbuf_read` ends if and only if it is asked for no more than the run holds or the run does not end inside a region
  (`ReadEndsIff`).
* `player_ov_read` drops the 167-byte header on every read that starts in the first page, not only on the first one: reads one
  after another skip nothing if and only if the first of them leaves the first page (`NothingSkippedIff`), and then they join
  (`ReadsJoin`). Under every key there are files of which two reads lose bytes because the first does not (`FirstPageLoses`).
  It trims more than it decrypted exactly when `Expected` says `Overrun`.
* `SHA1Update` keeps the bit count right if and only if the piece is shorter than 2^29 bytes or the lower half of the count
  happens to wrap (`CountRightIff`); a first piece of 2^29 bytes is not counted at all (`CountWrongExample`).
* A string of 22 base-62 digits is the uri of an id if and only if its number is below 2^128 (`IsUriIff`). `baseconvert`
  writes before the start of its result if and only if the number has more digits than asked for (`Convert`), so
  `id_uri_to_bytes` does for exactly the other strings of up to 128 characters of the alphabet, and goes wrong on all that
  are not such strings (`IdUriToBytes`). The track branch of `sp_link_create_from_string` passes on whatever follows the 22
  digits: a `#` and a time make a string whose digits are not found (`HashNotReadable`).
* `ezxml_decode` runs past the terminator exactly when the text ends in a carriage return, alone or before a last line feed
  (`Normalize`). Attribute values round-trip if and only if they hold no vertical tab or form feed (`RoundTrip`).
* Channel ids grow without bound although at most three channels are open at a time (`IdsGrow`, `IdsGrowFromStart`). They
  stay below a bound b throughout a run if and only if no channel is opened while id b - 1 is in use or is the next one
  (`AlwaysFitsIff`). With b = 2^16 it matters: requests carry sixteen bits of the id and answers are looked up by it, so they
  reach their channel if and only if its id is below 2^16 (`AnswersReachIff`), and otherwise may reach another
  (`AnswersStray`). Ids start at 0 again whenever no channel is open (`RunSane`).
* The scan of `iothread` takes no lock, and `request_post` links a request before it fills it. The scan pointer stays on an
  allocated request if and only if no step of the run takes the scan past a request that is linked and not filled yet
  (`Safety`); there is a run that does (`RaceRun`), and none does when posting is not interrupted (`AtOnceIsSafe`).
* `hashtable_remove` of a missing key returns with the lock held if and only if the key's bucket is not empty (`Remove`).
* A packet flagged as an error but without data ends its channel with END, not ERROR (`Final` in Channels.dfy).

## Model

| member | source | states |
|---|---|---|
| Shannon.StepInverse | libopenspotify/shn.c:327-421 | decrypting one byte encrypted from the same context restores it and leaves equal contexts |
| Shannon.DecryptUndoesEncrypt | libopenspotify/shn.c:327-421 | shn_decrypt undoes shn_encrypt on every buffer from every context, and both contexts end equal up to the dead mbuf |
| Shannon.RunInPieces | libopenspotify/shn.c:327-421 | splitting a buffer anywhere changes neither the bytes nor the context, whatever part word it starts in |
| Shannon.RunChunked | libopenspotify/shn.c:327-421 | any number of successive calls equals one call on the concatenation |
| Shannon.MacsAgree | libopenspotify/shn.c:327-465 | sender and receiver that start level recover the text and compute the same MAC however each divides it |
| Shannon.WordStep | libopenspotify/shn.c:345-360 | masking a whole word and accounting for it equals its four bytes one at a time |
| Shannon.PartIsRun | libopenspotify/shn.c:331-375 | finishing a part word byte by byte is running the reference machine |
| Shannon.RanThen | libopenspotify/shn.c:327-421 | runs over adjoining parts of one buffer compose |
| Shannon.ShnCtx.Cycle | libopenspotify/shn.c:74-92 | the in-place shift register step |
| Shannon.ShnCtx.CrcFunc | libopenspotify/shn.c:104-113 | the in-place CRC register step |
| Shannon.ShnCtx.MacFunc | libopenspotify/shn.c:118-122 | a MAC word enters both the CRC and the register, so that different words leave different ones (`AddKeysDiffer`, `CrcsDiffer` of ShannonKeys) |
| Shannon.ShnCtx.InitState | libopenspotify/shn.c:126-136 | the register of Fibonacci numbers |
| Shannon.ShnCtx.Diffuse | libopenspotify/shn.c:171-177 | sixteen steps of diffusion |
| Shannon.ShnCtx.LoadKey | libopenspotify/shn.c:183-220 | keys of any length, zero padded, with the length folded in; R and CRC depend on nothing but R and the key, and tell keys apart as `LoadedDiffer` says |
| Shannon.ShnCtx.Key | libopenspotify/shn.c:225-233 | keying leaves a state that does not depend on what was there before |
| Shannon.ShnCtx.Nonce | libopenspotify/shn.c:236-243 | R, CRC, konst and nbuf after a nonce depend only on the saved register and the nonce |
| Shannon.ShnCtx.ProcessWords | libopenspotify/shn.c:345-360 | the whole-word loop equals the reference machine on its bytes |
| Shannon.ShnCtx.ProcessBuffered | libopenspotify/shn.c:331-343 | the pending part word is finished or the buffer used up, as the reference machine does |
| Shannon.ShnCtx.ProcessTrailing | libopenspotify/shn.c:361-374 | the trailing bytes start a new part word, as the reference machine does |
| Shannon.ShnCtx.Encrypt | libopenspotify/shn.c:327-375 | in place, the bytes named and no others become the reference machine's output, and the context its state |
| Shannon.ShnCtx.Decrypt | libopenspotify/shn.c:377-421 | the same for decryption |
| Shannon.ShnCtx.Finish | libopenspotify/shn.c:427-465 | the MAC bytes are those of the abstract state, so equal states give equal MACs |
| ShannonKeys.CycledInjective | libopenspotify/shn.c:74-92 | one step of the shift register loses nothing: different registers stay different |
| ShannonKeys.LoadedDiffer | libopenspotify/shn.c:183-220 | keys of one length that differ in exactly one of their words leave different registers, from every register and constant |
| ShannonKeys.KeyedDiffer | libopenspotify/shn.c:183-243 | so the state after a key or a nonce tells such keys apart, by its CRC register |
| ShannonKeys.PlainWordsDiffer | libopenspotify/shn.c:327-375 | different words encrypted from one state leave different shift registers and different CRC registers |
| ShannonKeys.TextsDiffer | libopenspotify/shn.c:327-375 | the shift registers stay different whatever whole words surround the two |
| ShannonExample.Example | libopenspotify/shn.c:74-465 | keying with 1, 2, 3, 4, 5 turns "Hello" into 39 9d 74 48 63 with the MAC e9 c0 46 bc |
| Bufs.Buf.Extend | libopenspotify/buf.c:20-27 | the size is the old one doubled just often enough for the bytes to fit; the contents stay |
| Bufs.Buf.AppendData | libopenspotify/buf.c:50-55 | the contents grow by exactly the data |
| Bufs.Buf.Consume | libopenspotify/buf.c:89-100 | the front is split off and the rest moves up; the two parts make up the old contents |
| Words.ShortBytes | libopenspotify/packet.c:66-123 | ntohs reads back every sixteen-bit length that htons put in the header |
| Packets.OpenWire | libopenspotify/packet.c:57-154 | decrypting the header in one call and the payload in another gives back the packet that was encrypted in one call |
| Packets.NoncesDiffer | libopenspotify/packet.c:61-118 | different vectors give different nonce bytes and leave different cipher states |
| Packets.PacketsApart | libopenspotify/packet.c:92-150 | no two of 2^32 packets in succession are encrypted from the same state |
| Packets.StreamSplit | libopenspotify/packet.c:106-154 | a stream is cut at packet boundaries with the initialisation vectors in order |
| Packets.FrontPacket | libopenspotify/packet.c:57-83 | at a boundary the receiver sees the next packet sent, once it is complete |
| Packets.TakeKeepsStep | libopenspotify/packet.c:57-97 | one turn of the framing loop keeps the receiver at a packet boundary, its vector the number handled modulo 2^32 |
| Packets.DrainKeepsStep | libopenspotify/packet.c:57-97 | so does the whole loop |
| Packets.Delivery | libopenspotify/packet.c:24-103 | for every fragmentation of a prefix of a stream, and every handler that decides by the packet and those before it, the packets handled are the first ones sent, in order |
| Packets.CompleteDelivery | libopenspotify/packet.c:24-154 | once all bytes have arrived, every packet sent has been handled, in order, and nothing is left in the buffer |
| Packets.StreamAppend | libopenspotify/packet.c:106-154 | sending one more packet extends the stream by its bytes |
| Packets.Session.DecryptHeader | libopenspotify/packet.c:57-71 | the nonce is set and a copy of the header decrypted; the buffer is untouched, so it can be retried |
| Packets.Session.TakeFront | libopenspotify/packet.c:78-92 | a complete packet is split off, decrypted, handed over, and the vector incremented |
| Packets.Session.Drain | libopenspotify/packet.c:57-103 | the loop on the real buffer and cipher context is the abstract framing loop |
| Packets.Session.ReadAndProcess | libopenspotify/packet.c:24-103 | one call receives some bytes and does what the abstract receiver does with them |
| Packets.Session.EncryptPacket | libopenspotify/packet.c:136-141 | the buffer holds the encryption, keyed with the nonce of the vector, of command, length and payload in one run, and then the MAC |
| Packets.Session.Write | libopenspotify/packet.c:106-154 | the bytes sent are the wire form of the packet, whose nonce is the vector as a big-endian number, and the vector moves on, whatever block_write reports |
| Packets.Session.SendAll | libopenspotify/packet.c:106-154 | packets written one after another are sent as one stream |
| Packets.Session.ReceiveAll | libopenspotify/packet.c:24-103 | reads of any sizes, one after another, do what the abstract receiver does with those pieces |
| Packets.Converse | libopenspotify/packet.c:24-154 | end to end: what one session writes another with the same key and vector handles, in order and nothing else, up to the first packet it refuses, whatever the sizes of its reads |
| AesSpec.InvMixMix | libopenspotify/aes.c:31-43 | InvMixColumns undoes MixColumns |
| AesSpec.InvMixLinear | libopenspotify/aes.c:31-43 | InvMixColumns distributes over the addition of round keys |
| AesSpec.InvRoundsUndo | libopenspotify/aes.c:1252-1310 | after j inverse rounds the state is that of the cipher j rounds earlier, before its MixColumns |
| AesSpec.DecryptUndoesEncrypt | libopenspotify/aes.c:1091-1310 | the equivalent inverse cipher with the transformed schedule inverts the cipher, for every number of rounds and all keys |
| Aes.EncWordIs | libopenspotify/aes.c:31-43 | four table lookups add up to MixColumns of the substituted, shifted column |
| Aes.DecWordIs | libopenspotify/aes.c:31-43 | the same for the inverse tables |
| Aes.EncRoundIs | libopenspotify/aes.c:1030-1060 | four words of a round are SubBytes, ShiftRows, MixColumns and AddRoundKey of section 5.1 of FIPS 197 |
| Aes.DecRoundIs | libopenspotify/aes.c:1252-1290 | four words of an inverse round are those of section 5.3.5 |
| Aes.Encrypt | libopenspotify/aes.c:869-1089 | the two-rounds-per-iteration loop computes the cipher, for all round keys and every even number of rounds from 2 |
| Aes.Decrypt | libopenspotify/aes.c:1091-1310 | the same for the equivalent inverse cipher |
| Aes.RconIs | libopenspotify/aes.c:719-723 | the literal round constants are the powers of x |
| Aes.FourWords | libopenspotify/aes.c:750-761 | the shared part of the loop bodies extends the expansion of section 5.2 by four words |
| Aes.KeySetupEnc | libopenspotify/aes.c:738-816 | the schedule is the key expansion of FIPS 197 for 128, 192 and 256 bits; other sizes give no rounds |
| Aes.ReverseRoundKeys | libopenspotify/aes.c:831-844 | the in-place swaps reverse the order of the round keys |
| Aes.TransformInnerKeys | libopenspotify/aes.c:846-864 | every round key but the first and last goes through InvMixColumns in place, given an S-box with an inverse |
| Aes.KeySetupDec | libopenspotify/aes.c:823-867 | the result is the decryption schedule of the expanded key |
| Aes.DecryptWithKey | libopenspotify/aes.c:823-1310 | with both schedules set up from one key, decryption undoes encryption |
| AesStandard.StandardInverts | libopenspotify/aes.c:31-43 | the S-box of FIPS 197 has the inverse it gives, so what is proved for every such S-box holds for it |
| AesStandard.ScheduleIs | libopenspotify/aes.c:738-816 | for all three key sizes the schedule starts with the key's bytes, and each further word is the sum section 5.2 gives, the substitution in the fifth of every eight included |
| AesStandard.Example | libopenspotify/aes.c:738-1089 | the key of appendix B, expanded, encrypts its input to its output |
| CtrMode.CtrInPieces | libopenspotify/player.c:755-788 | counter mode on whole blocks can be cut between any two of them |
| CtrMode.CtrTwice | libopenspotify/player.c:785-787 | decrypting is encrypting again |
| CtrMode.CtrAt | libopenspotify/player.c:773-788 | byte i is xored with byte i mod 16 of the encryption of the counter i / 16 later, as sixteen big-endian bytes |
| CtrMode.DeinterleaveInPieces | libopenspotify/player.c:755-770 | deinterleaving works kilobyte by kilobyte |
| CtrMode.DeinterleaveAt | libopenspotify/player.c:755-770 | byte k of quarter q of a kilobyte goes to its place 4k + q |
| CtrMode.BytesOfNumber | libopenspotify/player.c:899-912 | a counter is determined by the number it stands for |
| CtrMode.NumberOfBytes | libopenspotify/player.c:899-912 | and stands for it |
| CtrMode.RandomAccess | libopenspotify/player.c:735-788 | decrypting any run of kilobytes with the counter moved on by its position gives that part of the one-pass decryption of the whole file |
| CtrMode.AnyPlaintext | libopenspotify/player.c:755-788 | under every key, any whole kilobytes are the decryption of some file |
| Players.SeekCounter | libopenspotify/player.c:899-912 | the counter is the nonce plus the position over 16, as a big-endian number; the carry loop stays in bounds |
| Players.Increment | libopenspotify/player.c:779-783 | the in-place increment adds one modulo 2^128 |
| Players.DeinterleaveInto | libopenspotify/player.c:757-770 | four parts of 256 bytes are interleaved byte by byte, the rest of the target untouched |
| Players.DecryptBlock | libopenspotify/player.c:773-788 | a kilobyte in place becomes its counter-mode decryption and the counter moves on by 64 |
| Players.DecryptAll | libopenspotify/player.c:753-789 | the whole loop gives the counter-mode decryption of the deinterleaved data |
| Players.WriteKeeps | libopenspotify/player.c:507-509 | storing the file's own bytes at the writer keeps the buffer consistent with the file |
| Players.Player.constructor | libopenspotify/player.c:448-453 | an empty buffer and the expanded file key |
| Players.Player.Schedule | libopenspotify/player.c:425-560 | every byte from the writer to where the data of the items ends is stored, up to the end of the file, and the writer stands there; the end of file is set exactly by its item, and the download ends as the items say; the buffer stays consistent with the file and only grows |
| Players.Player.RequestMore | libopenspotify/player.c:675-707 | the request starts at the page of the first missing byte and is the shortest number of whole pages for what is missing; the writer is placed there |
| Players.Player.Fetch | libopenspotify/player.c:671-716 | at most one request is posted; waiting ends with half of what is wanted, at the end of the file, or not at all, the last never when the items supply that much |
| Players.Player.Load | libopenspotify/player.c:735-789 | what is read from the sparse buffer and decrypted is that part of the one-pass plaintext |
| Players.Player.OvRead | libopenspotify/player.c:630-832 | for every position and size: when it delivers, ends, aborts or overruns, and that what it delivers is the plaintext from the position on, less the header in the first page, with the reader left behind it; it posts at most one request, goes on only at the end of the file or with half of what is wanted, or when what is missing rounds to no page, and does go on when the items supply half of what is wanted |
| Players.Player.ReadAll | libopenspotify/player.c:630-832 | reads one after another deliver a chain of pieces of the plaintext, and one stretch of it if the first leaves the first page |
| Players.Player.Strip | libopenspotify/player.c:795-829 | the bytes before the position and the header are dropped, and the stream length read from the plaintext |
| Players.StreamLengthIs | libopenspotify/player.c:795-829 | the four bytes are a little-endian int, rounded down to a page, less the header |
| Players.ReadsJoin | libopenspotify/player.c:630-832 | successive reads deliver the plaintext without loss or repetition, if none but the last ends in the first page |
| Players.NothingSkippedIff | libopenspotify/player.c:727-829 | reads one after another skip nothing between their pieces if and only if there is one read or the first ends beyond the first page |
| Players.FirstPageLoses | libopenspotify/player.c:727-829 | under every key and for every whole number of kilobytes in the first page there is a file of which two reads, with the outcomes `OvRead` promises, deliver pieces that do not join |
| Rbufs.RunIsLongest | libopenspotify/rbuf.c:213-248 | every byte of the run is present and the one after it is not |
| Rbufs.NeverReturns | libopenspotify/rbuf.c:160-205 | asked for more than a run that ends inside a region, the reading loop never ends |
| Rbufs.ReadEndsIff | libopenspotify/rbuf.c:160-205 | the loop of rbuf_read ends after some number of steps if and only if no more is asked for than the run holds or the run does not end inside a region |
| Rbufs.NeverReturnsExample | libopenspotify/rbuf.c:160-205 | two bytes asked for where one is present |
| Rbufs.WriteIsExact | libopenspotify/rbuf.c:104-153 | a write changes exactly its range if and only if it does not start beyond what its region holds |
| Rbufs.GapExample | libopenspotify/rbuf.c:104-153 | one byte written at offset 1 of an empty buffer makes byte 0 present |
| Rbufs.WriteThenRead | libopenspotify/rbuf.c:104-205 | what was written is what a read at the same offset returns |
| Rbufs.OverlayWrites | libopenspotify/rbuf.c:129-145 | filling one region writes its part of the range, the table growing if it must |
| Rbufs.Rbuf.Seek | libopenspotify/rbuf.c:56-87 | reader or writer moves in size_t arithmetic; the other and the contents stay |
| Rbufs.Rbuf.Length | libopenspotify/rbuf.c:213-248 | the length of the longest contiguous run from the reader |
| Rbufs.Rbuf.Read | libopenspotify/rbuf.c:160-205 | whenever it can end: exactly the bytes of the run, as many as asked for or as there are, and the reader behind them |
| Rbufs.Rbuf.Write | libopenspotify/rbuf.c:104-153 | the range holds the data, everything else but a skipped gap of the first region is as before, and the writer moves on |
| Sha1Spec.BlocksNext | libopenspotify/sha1.c:116-174 | the fold over blocks, one block at a time |
| Sha1Spec.CountBytesAre | libopenspotify/sha1.c:226-234 | the eight bytes behind the padding are the number of bits, most significant first |
| Sha1Example.Example | libopenspotify/sha1.c:116-242 | the digest of "abc" is the one FIPS 180 gives |
| Sha1.SwapJoin | libopenspotify/sha1.c:37-41 | the byte swap of blk0 turns a host-order word into the big-endian one |
| Sha1.WindowMoves | libopenspotify/sha1.c:45-46 | the 16-word circular schedule holds the latest words of the 80-word schedule of FIPS 180-4 |
| Sha1.WindowSwaps | libopenspotify/sha1.c:37-43 | and its first sixteen words, swapped one by one |
| Sha1.ChooseIsCh | libopenspotify/sha1.c:51-52 | the shortened choice function is Ch |
| Sha1.MajorityIsMaj | libopenspotify/sha1.c:54 | the shortened majority function is Maj |
| Sha1.R0 | libopenspotify/sha1.c:51 | a round on rotated register names is a round of section 6.1.2 with registers shifted |
| Sha1.R3 | libopenspotify/sha1.c:54 | the same for rounds 40 to 59 |
| Sha1.DoR01 | libopenspotify/sha1.c:72-80 | the twenty unrolled calls are rounds 0 to 19 |
| Sha1.DoR2 | libopenspotify/sha1.c:82-90 | rounds 20 to 39 |
| Sha1.DoR3 | libopenspotify/sha1.c:92-100 | rounds 40 to 59 |
| Sha1.DoR4 | libopenspotify/sha1.c:102-110 | rounds 60 to 79 |
| Sha1.Transform | libopenspotify/sha1.c:116-174 | the state becomes the compression of the block |
| Sha1.CountRightIff | libopenspotify/sha1.c:202-204 | the exact condition under which the bit count stays right |
| Sha1.CountWrongExample | libopenspotify/sha1.c:202-204 | a first piece of 2^29 bytes leaves the count at 0 |
| Sha1.AnySplitCounts | libopenspotify/sha1.c:197-204 | however a message is cut into pieces short of 2^29 bytes, the count is that of the whole message |
| Sha1.Context.constructor | libopenspotify/sha1.c:181-191 | the initial state is that of the empty message |
| Sha1.Context.Update | libopenspotify/sha1.c:197-216 | the message grows by the piece, whatever was waiting in the buffer, so only the concatenation of the pieces matters |
| Sha1.Context.AddPadding | libopenspotify/sha1.c:232-234 | the one bit and exactly as many zeros as section 5.1.1 asks for |
| Sha1.Context.Final | libopenspotify/sha1.c:222-242 | the digest is that of the padded one-shot message, if the count is right; otherwise of the padding with the count as it stands |
| Sha1.Hash | libopenspotify/sha1.c:180-242 | a message in pieces of less than 2^29 bytes, however cut, is hashed to its digest; longer pieces give the digest under the count they leave |
| BaseConvert.NumberOfDigits | libopenspotify/sp_link.c:406-441 | enough digits give the number back |
| BaseConvert.DigitsOfNumber | libopenspotify/sp_link.c:406-441 | a number's digits are unique |
| BaseConvert.AlphabetIs | libopenspotify/sp_link.c:406-413 | the digits are the places in the alphabet of 64 characters |
| BaseConvert.NumberFirst | libopenspotify/sp_link.c:424-436 | the first digit counts most |
| BaseConvert.Divide | libopenspotify/sp_link.c:424-436 | one in-place pass divides the number and returns the remainder; no digits are left exactly when the quotient is zero |
| BaseConvert.Load | libopenspotify/sp_link.c:409-413 | the digits are found, within the array, if and only if the string has up to 128 characters, all of the alphabet |
| BaseConvert.HashNotReadable | libopenspotify/sp_link.c:62-77 | no string with a # in it is such a string |
| BaseConvert.Convert | libopenspotify/sp_link.c:406-441 | the result is the lowest padlen digits of the number; the function stays inside its arrays and its alphabet if and only if the string is readable and its number has no more digits |
| BaseConvert.HexRoundTrip | libopenspotify/util.c:28-51 | bytes survive their two hexadecimal digits |
| BaseConvert.ScansCapitals | libopenspotify/util.c:28-41 | capital digits are read like small ones |
| BaseConvert.HexBytesToAscii | libopenspotify/util.c:43-51 | two lower-case digits for each byte |
| BaseConvert.HexAsciiToBytes | libopenspotify/util.c:28-41 | each pair is read as a number; it fails exactly when some pair does not start with a hexadecimal digit |
| BaseConvert.UriHasRoom | libopenspotify/sp_link.c:449-460 | 16^32 is at most 62^22 |
| BaseConvert.IdRoundTrip | libopenspotify/sp_link.c:449-477 | an id survives its uri |
| BaseConvert.UriRoundTrip | libopenspotify/sp_link.c:449-477 | a uri of 22 digits whose number fits survives its id |
| BaseConvert.IsUriIff | libopenspotify/sp_link.c:449-477 | exactly the strings of 22 base-62 digits whose number is below 2^128 are uris of ids |
| BaseConvert.IdBytesToUri | libopenspotify/sp_link.c:449-460 | the buffer holds the uri of the id |
| BaseConvert.IdUriToBytes | libopenspotify/sp_link.c:467-477 | it stays inside its arrays if and only if the uri is readable and its number is below 2^128, and then finds the id of the uri |
| EzxmlTree.Insert | libopenspotify/ezxml.c:858-898 | the list of all children and every list of one name stay in document order, and the list of first tags is right if and only if the new tag does not displace a head of its own name |
| EzxmlTree.ClashExample | libopenspotify/ezxml.c:858-898 | two tags of one name, the second in front, leave the lists inconsistent |
| EzxmlTree.AddChild | libopenspotify/ezxml.c:901-913 | with offsets that do not decrease the new child comes last and all three lists stay consistent |
| EzxmlTree.Child | libopenspotify/ezxml.c:69-74 | the first child of that name in document order, or none |
| EzxmlTree.Idx | libopenspotify/ezxml.c:78-82 | steps along the list of one name |
| EzxmlTree.Get | libopenspotify/ezxml.c:69-82 | the k-th child of that name in document order |
| EzxmlTree.NamedIsKth | libopenspotify/ezxml.c:78-82 | the k-th tag of a name is the child with k such children before it |
| EzxmlTree.FirstsNew | libopenspotify/ezxml.c:876-893 | a tag before all others of its name takes the place of the one that was first |
| EzxmlTree.FirstsKnown | libopenspotify/ezxml.c:870-875 | a tag behind another one of its name is not a first tag |
| EzxmlTree.AllNextInserted | libopenspotify/ezxml.c:870-893 | with the new tag in its own list the lists of all names are right |
| EzxmlUtf.Utf8RoundTrip | libopenspotify/ezxml.c:451-456 | the encoding of section 3 of RFC 3629 gives the character back, whatever follows |
| EzxmlUtf.PayloadIs | libopenspotify/ezxml.c:453-454 | the bit-count formula gives the right length for every character |
| EzxmlUtf.PutChar | libopenspotify/ezxml.c:451-456 | the bytes written are the UTF-8 of the character |
| EzxmlUtf.Str2Utf8 | libopenspotify/ezxml.c:431-459 | what becomes of any document, well formed or not, within the buffer, which has grown by whole steps; documents without a mark are left alone |
| EzxmlUtf.ConvertsAll | libopenspotify/ezxml.c:441-457 | well-formed UTF-16 of either byte order becomes the UTF-8 of the same characters |
| EzxmlUtf.DocumentConverts | libopenspotify/ezxml.c:431-459 | the same for a whole document with its byte order mark |
| EzxmlCodec.AmpEncode | libopenspotify/ezxml.c:676-697 | the encoding of what precedes the terminator or the length is appended, within the buffer |
| EzxmlCodec.Normalize | libopenspotify/ezxml.c:172-177 | line endings are normalised in place, or the string is left exactly when it ends in a carriage return, alone or before a line feed |
| EzxmlCodec.NormalizedIs | libopenspotify/ezxml.c:172-177 | text without a carriage return stays, and a carriage return with or without a line feed becomes one line feed |
| EzxmlCodec.StepShrinks | libopenspotify/ezxml.c:179-216 | the scan makes progress although replacements are scanned again and may be longer |
| EzxmlCodec.RefFits | libopenspotify/ezxml.c:189-196 | the bytes that replace a reference fit where it stood |
| EzxmlCodec.EntityInPlace | libopenspotify/ezxml.c:200-213 | a known entity is replaced in place, with memory for the longer string |
| EzxmlCodec.DecodeInPlace | libopenspotify/ezxml.c:179-216 | the in-place loop with rescanning ends and computes the decoding |
| EzxmlCodec.OneDecodes | libopenspotify/ezxml.c:167-216 | the encoding of one character decodes to that character, whatever follows |
| EzxmlCodec.ReferencesDecode | libopenspotify/ezxml.c:183-196 | the decimal and the hexadecimal reference to every character, in digits of either case, decode to its UTF-8 |
| EzxmlCodec.EncodingDecodes | libopenspotify/ezxml.c:167-216 | so does the encoding of a string |
| EzxmlCodec.RoundTrip | libopenspotify/ezxml.c:676-697 | decoding undoes encoding for all text, and for attribute values if and only if they hold no vertical tab or form feed |
| EzxmlCodec.Decode | libopenspotify/ezxml.c:167-227 | normalising and decoding together |
| Hashtables.HashTable.Find | libopenspotify/hashtable.c:139-168 | the value the map holds for the key, or none; only allocated entries are read |
| Hashtables.HashTable.Insert | libopenspotify/hashtable.c:51-87 | the map gains the pair and the chain its bucket names one entry at the end |
| Hashtables.IndexIs | libopenspotify/hashtable.c:51-55 | the bucket is the first byte of the key and the three low bits of the second |
| Hashtables.HashTable.Remove | libopenspotify/hashtable.c:90-136 | the map loses the key; a pinned entry is put on the free list with its link intact, any other is freed; a missing key changes nothing, and the lock stays held exactly when its bucket is not empty |
| Hashtables.HashIterator.constructor | libopenspotify/hashtable.c:171-186 | everything is still to be visited |
| Hashtables.HashIterator.Next | libopenspotify/hashtable.c:189-207 | the next entry in the order of the table, or none when all were visited, even if the current entry was removed |
| Hashtables.HashIterator.Free | libopenspotify/hashtable.c:210-225 | every entry put off is freed once and the free list is empty |
| Tracks.TrackCache.Add | libopenspotify/sp_track.c:123-166 | the track of this id, made and inserted if there is none; no key is ever inserted twice |
| Tracks.TrackCache.FreeTrack | libopenspotify/sp_track.c:169-198 | track and entry leave table and memory together |
| Tracks.TrackCache.Release | libopenspotify/sp_track.c:106-115 | the last reference frees the track |
| Tracks.TrackCache.Collect | libopenspotify/sp_track.c:515-519 | removing the current entry keeps the iteration in step |
| Tracks.TrackCache.GarbageCollect | libopenspotify/sp_track.c:505-522 | every entry is visited once in order; the tracks, the table and the allocated entries that are left are exactly those something refers to, in chains of the old order; nothing put off is left |
| Tracks.FilterLess | libopenspotify/sp_track.c:505-522 | keeping one entry less takes it out of the filtered chain |
| Scoreboard.StepKeeps | libopenspotify/request.c:31-321 | every step of either thread keeps the invariant of the shared list, posting being three steps between which other threads take those that need no lock |
| Scoreboard.Safety | libopenspotify/iothread.c:66-92 | in every run of the two threads no result is dispatched twice, nothing is freed before its result is dispatched, and the fetched request is never freed; the scan pointer is on a listed, allocated request if and only if no step of the run took the scan past a request that was linked and not filled yet |
| Scoreboard.RaceRun | libopenspotify/request.c:40-56 | a run in which it does |
| Scoreboard.AtOnceIsSafe | libopenspotify/request.c:40-56 | no run does when every poster goes from its link to its last store without a step of another thread |
| Scoreboard.PostsWhole | libopenspotify/request.c:31-118 | posting without interruption appends the request with its state |
| Scoreboard.StepForward | libopenspotify/request.c:127-276 | a step moves a request forward through its states or leaves it |
| Scoreboard.RunForward | libopenspotify/request.c:127-321 | so does every run |
| Scoreboard.FirstReturnedIs | libopenspotify/request.c:226-231 | what is fetched is the first request with a result |
| Scoreboard.NextOfIs | libopenspotify/iothread.c:66-92 | the scan goes to the next request of the list |
| Scoreboard.CleanedInPieces | libopenspotify/request.c:283-321 | a cleanup takes out of every part of the list what it takes out of that part alone |
| Requests.Session.Post | libopenspotify/request.c:31-68 | a new request at the end of the list |
| Requests.Session.PostResult | libopenspotify/request.c:79-118 | a request with its result at the end of the list |
| Requests.Session.SetResult | libopenspotify/request.c:127-150 | that request and no other becomes RETURNED |
| Requests.Session.FetchNextResult | libopenspotify/request.c:212-251 | the first request with a result, and the shortest sleep any pending timeout asks for |
| Requests.Session.MarkProcessed | libopenspotify/request.c:259-276 | that request and no other becomes PROCESSED |
| Requests.Session.Cleanup | libopenspotify/request.c:283-321 | exactly the processed requests are removed and freed, once each, and the others keep their order |
| Requests.Session.NextDue | libopenspotify/iothread.c:73-81 | the scan finds the next request without a result whose time has come, and reads only allocated ones |
| Requests.Session.Gate | libopenspotify/iothread.c:152-182 | who is put off, until exactly when, who fails and who gets to a handler |
| Channels.ToldInOrder | libopenspotify/channel.c:106-209 | a callback hears headers, then data, then at most one end or error and nothing after it |
| Channels.RegisterKeeps | libopenspotify/channel.c:19-63 | ids stay pairwise distinct and the next id is not in use |
| Channels.UnregisterKeeps | libopenspotify/channel.c:66-93 | the same when a channel is closed |
| Channels.IdsGrow | libopenspotify/channel.c:19-93 | ids grow without bound with at most three channels open |
| Channels.IdsGrowFromStart | libopenspotify/channel.c:19-93 | two opens and a close lead from the first state to one whose id grows by one with every cycle |
| Channels.AlwaysFitsIff | libopenspotify/channel.c:19-93 | ids below a bound stay below it in every state of a run of opens and closes if and only if no open of the run happens while the largest of them is in use or is the next one |
| Channels.RunSane | libopenspotify/channel.c:19-93 | in every run the open ids differ, none is negative and 0 is in use or is the next one; with no channel open the next id is 0 |
| Channels.AnswersReachIff | libopenspotify/channel.c:106-127 | a packet with the sixteen bits of a channel's id reaches that channel if and only if its id fits them |
| Channels.LengthReads | libopenspotify/channel.c:113-154 | two bytes in network order, anywhere in a packet, are read back as their number |
| Channels.ParseReads | libopenspotify/channel.c:146-193 | non-empty headers, each behind its length, and an empty one at the end are parsed as exactly those headers and the last |
| Channels.PacketReaches | libopenspotify/channel.c:106-127 | a packet that starts with the id of an open channel below 2^16 in network order is looked up as that channel |
| Channels.AnswersReach | libopenspotify/channel.c:19-127 | so answers reach their channels in every run from the start that opens none at the limit |
| Channels.AnswersStray | libopenspotify/channel.c:19-127 | a run from the start to two open channels of which one hears the answers to the other |
| Channels.Channel.Headers | libopenspotify/channel.c:146-193 | the headers in a packet are announced one by one, and how the packet ends decides the state |
| Channels.Channel.Deliver | libopenspotify/channel.c:137-206 | data, end or error reach the callback in the state that decides their meaning |
| Channels.Session.Register | libopenspotify/channel.c:19-63 | a new channel in front of the list with the id that was next |
| Channels.Session.Unregister | libopenspotify/channel.c:66-93 | that channel and no other leaves the list |
| Channels.Session.Lookup | libopenspotify/channel.c:95-125 | the one channel of that id, if there is one |
| Channels.Session.Process | libopenspotify/channel.c:106-212 | a packet reaches the channel whose id it starts with, in network order, and no other, which is closed exactly after an end or an error |
| Channels.Session.FailAll | libopenspotify/channel.c:215-231 | every open channel hears exactly one error and none is left |
| Browse.PartitionCovers | libopenspotify/browse.c:103-299 | every item is in exactly one answered batch |
| Browse.AnswersHold | libopenspotify/browse.c:233-299 | in every run the answers hold what the channels that ended gave out, less ten bytes, one for each; an artist browse alone has answers without data |
| Browse.ErrorRetries | libopenspotify/browse.c:256-277 | in every state of a run an error leaves items browsed and answers as they were, and the first scan after the timeout requests the same batch again |
| Browse.RequestsFull | libopenspotify/browse.c:103-225 | every batch requested in a run is as many items as are left, up to 244 of the track kinds and one of the others |
| Browse.WholeBrowse | libopenspotify/browse.c:63-299 | in every run of scans and channel calls the result is set once if the browse is finished and not before; then the batches answered cut up all items in order, within the limit, and are the batches requested, repeats of the last one aside, in the same order |
| Browse.StrippedMore | libopenspotify/browse.c:239-251 | the ten header bytes are skipped once, wherever the packets cut them |
| Browse.Browser.Process | libopenspotify/browse.c:63-225 | before the timeout, while a request is out and after the result nothing happens; otherwise the next batch within the limit is requested, or the result set when all are browsed |
| Browse.Browser.Callback | libopenspotify/browse.c:233-299 | data is collected; the end answers the batch with the channel's payload less ten bytes; an error answers an artist browse with nothing and leaves the items browsed and the answers of any other, which requests the same batch again |
| Browse.Arrive | libopenspotify/channel.c:130-212 | a packet for the channel of a request has the browse hear exactly the headers announced, the data, the end or the error |

## Left out

- Sockets, select, receive and send errors, DNS, Diffie-Hellman and RSA: recv is an arbitrary piece of the bytes available, block_write's result a parameter.
- Mutexes and condition variables: a locked section is one step, except where a scan without the lock can see inside it; clocks are parameters.
- Hashtables.HashTable.Insert: a key that is already there, which the code would insert a second time; the callers modelled look it up first (`TrackCache.Add`).
- zlib, libvorbis, PCM delivery, the player's load, play, pause and unload items, player_ov_seek and player_substream_callback.
- login.c, dns.c, hmac.c.
- shn_stream and shn_maconly.
- The MAC is not checked on receive, so delivery is claimed for streams made by packet_write only.
- The literal tables of aes.c (they are defined by the formulas of its comment over any S-box; AesStandard.dfy has the standard one), the FULL_UNROLL form and the reduced-round functions.
- Allocation failure.
- BaseConvert.HexAsciiToBytes: white space, signs and the 0x prefix that sscanf accepts are not modelled.
- EzxmlCodec.Decode: as EzxmlCodec.DecodeInPlace.
- EzxmlCodec.DecodeInPlace: general entities declared in a document, the modes for parameter entities, cdata sections and tokenised attributes, and signs, white space and prefixes that strtol accepts are not modelled; character references beyond U+10FFFF leave the result open.
- DTDs, processing instructions, ezxml_cut and the document parser around the modelled functions.
- Tracks.TrackCache.FreeTrack: the release of the track's album and artists is not modelled.
- Channels.Session.Process: callbacks that open or close channels themselves are not modelled.
- Scoreboard.Safety: that results are only set on requests without one is part of the step relation, requests are told apart by allocation and not by address, and the stores of one thread are seen in program order; a thread that follows a pointer nobody has written takes no further step, and what a handler makes of the type and input of a half-filled request is not modelled.
- Players.Player.Schedule: only the items for data, the end of a chunk and the end of the file; data is the file's from the writer's position on.
- Players.Player.OvRead: files and sizes below 2 GiB, where the request's ints do not wrap; the server sends the file's bytes from the writer's position on; a read for which no further items come ends as `Blocked`.
- Rbufs.Rbuf.Read: offsets whose region number fits an unsigned int, and only reads that end; `NeverReturns` covers the others.
- Rbufs.Rbuf.Length: offsets whose region number fits an unsigned int.
- Rbufs.Rbuf.Write: ranges whose region numbers fit an unsigned int.
- Sha1.Context.Update: pieces within 128 bytes of 2^32, where the loop index wraps.
- BaseConvert.Convert: what is read or written outside the arrays and what becomes of a character outside the alphabet is not modelled, only when.
- BaseConvert.IdUriToBytes: as BaseConvert.Convert.
- The contents of the parsed XML (artists, albums, tracks), playlists, search, images, users and the public accessors.
