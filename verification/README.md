# Verified model of the BitTorrent client's piece pipeline

This project models how the client downloads a torrent, from the metainfo file
to the verified pieces, together with the parts it relies on, and proves
properties of the model with Dafny 4.11. `dafny verify dfyconfig.toml` checks
everything. Code that changes state is modelled by classes and methods with
loops; each such method is proved against a specification, and what the client
promises is proved about that specification.

| module | models |
|---|---|
| `Bytes` | bytes, memory copies, big-endian integers |
| `Sha1Spec`, `Sha1Vectors`, `Sha1Rounds`, `Sha1Stream` | FIPS 180-4 for SHA-1; its constants, its parts and a published digest; the compression function with its unrolled rounds; init, update, finish and the one-shot call |
| `FileLayout`, `PieceRequest`, `PieceLayout` | the files as one run of bytes; the cursor walk that cuts a piece into blocks over files; what the walks of all pieces cover together |
| `Torrent` | the shared state of a download and the hash check of a piece |
| `Bitfield`, `Socket`, `PeerMsg`, `PeerWire`, `WireFormat` | bitfields; the send and receive loops over a socket; the message format of BEP 3; sending and receiving messages and blocks; the bytes of every message |
| `DownloadMachine` | the download as a state machine over the steps of its connections, and its invariant |
| `DownloadSafety`, `DownloadHonest`, `Courtesy`, `Asking` | which writes keep the pieces right; downloads from peers that send true blocks, and how they end; what a peer's stream has to be like for either; when the client may ask, and what stops it |
| `PeerConnection`, `Course`, `Client`, `Downloader` | the steps of a connection as methods; what a connection hears, asks and changes, move by move; a whole connection; a whole download |
| `Seed` | a whole download from one peer that has every piece |
| `BencodeText`, `BencodeOrder`, `BencodeDict`, `BencodeRead`, `BencodeParser`, `BencodeEncoder`, `InfoHash`, `BencodeFormat` | bencoded values and their text; the ordered multimap; both parsers; the printer; the info hash; the bytes of a value and the order of keys |

## Main results

- **Safety of a download.** `Downloader.Download` runs the connections of a
  download one after the other, with peers that may say anything and sockets
  that may split, fail or end anywhere. Its record (`Course.IsLog`) goes from
  move to move: the client opens a connection, hears the message that is next in
  that peer's stream, asks, or closes; so every stream is heard in its order and
  no message twice, and the moves are a run of `DownloadMachine` (`LogIsRun`).
  The hypothesis of safety is about the sockets and files as they are before the
  download (`AllCourteous` with `Sparing`): if no PIECE message changes a byte
  of a piece whose bytes, by then, have the advertised hash, whatever the socket
  makes of the message, then at the end every piece marked HAVE has the
  advertised SHA-1 hash, and a complete download has all of them. Peers may send
  wrong blocks, blocks nobody asked for, and blocks again, and sockets may fail
  inside a block. In the machine the same holds of every run in which peers send
  blocks, right or wrong, of the piece they are asked for (`RunAskedSafe`), and
  of every run in which no write changes a byte of a HAVE piece (`RunSafe`), a
  condition that is exact (`RunSafeIff`, `HarmlessIff`, `WriteSafeIff`).
- **A download gives the original.** If the streams hold blocks of the original
  only, none twice over one connection, and no socket fails inside a block
  (`AllCourteous` with `Truthful`), then every HAVE piece and a complete
  download are the original, byte by byte and without any assumption about the
  hash (`Download`, `HonestRun`).
- **One peer is enough.** When a peer that has every piece sends its bitfield,
  UNCHOKE, and then the blocks of the original as they are asked for, and the
  socket takes what the client has to say, the methods of the client, run to the
  end, leave a complete download that is the original, and have told the peer
  exactly this: the initial bitfield, UNCHOKE, INTERESTED, and for every piece
  in turn a REQUEST for each of its blocks, in order, and then HAVE
  (`DownloadFromSeed`). These requests ask for every byte of a piece once
  (`AskedOnce`). In the machine such a run exists from every state that honest
  peers have led to in which the client may ask (`CanComplete`,
  `FreshDownloadCompletes`), with the blocks of each piece in any order
  (`HonestDelivery`, `HonestRounds`).
- **SHA-1.** For every message and every way of splitting it into update calls
  the digest is that of FIPS 180-4 (`Sha1Stream.Context.Update` and `Finish`),
  because the compression function refines section 6.1.2 for every state and
  block (`Sha1Rounds.Transform`). The specification itself is held to the
  standard's own data: its constants are square roots (`ConstantsAreRoots`), and
  the message "abc" has the digest that the standard gives (`AbcDigest`).
- **Pieces, blocks and files.** The walk ends and covers exactly its range
  (`PieceRequestCreate`), the pieces together partition the files (`Partition`),
  and receiving a scattered block is one flat write (`RecvBlock`).
- **Bencoding.** Both parsers read the text of any value, wherever it stands, as
  that value with every dictionary stably sorted (`Parse`); text is prefix-free
  (`PrefixFree`); parsing and printing is the identity exactly when every
  dictionary is in key order and no key has a NUL byte (`EncodeParsedIff`),
  which is what the info hash needs (`MetainfoHash`). The order of keys is that
  of their bytes, a proper prefix first (`LessIs`, `ParsedKeys`).
- **Messages.** Any sequence of messages that one loop of peer_msg_send writes
  is read back as the same sequence by a loop of peer_msg_recv, using up the
  stream exactly, however the two sockets split the bytes (`Exchange`,
  `StreamRoundTrip`). Every kind of message is spelled out byte by byte, as it
  is sent and as it is read (`SentAsBytes`, `ReadFromBytes`, `HandshakeIs`).

## Where the code meets its purpose only on a condition

Each of these is proved as an if and only if, most of them with a concrete input
that shows the failure.

- A received block is written into the files before anything looks at the state
  of its piece, so a block for a piece that is already HAVE overwrites it. So
  does a block for a piece that does not exist, whose place is taken modulo 2^32
  and may lie in any piece. A write keeps all HAVE pieces right exactly when
  those it touches still have their hashes (`WriteSafeIff`), that is, unless the
  hash function fails to tell the old bytes from the new, exactly when it
  changes no byte of a HAVE piece (`HarmlessIff`). `OverwriteBreaksSafety` shows
  both ways to fail while the download is still going on, and
  `StrayPieceIsHeard` the bytes of a message that is such a stray block. Blocks
  of the open request never do this, because its piece is REQUESTED
  (`MissingPieceIsHarmless`).
- A socket that fails inside a block is only logged (src/peer_msg.cpp:619-621):
  the block still counts as arrived. It holds the stream's bytes exactly as far
  as the stream went before the failure (`PeerMsgRecvPiece`, `FilledIsWritten`).
  So a hash check can fail although the peer is honest, and the piece is given
  back (`TornBlockGivesBack`). Unless the hash function fails to tell the piece
  from the original, that happens exactly when a block is not in place
  (`GivenBackIff`); all are when peers send true blocks, each once, and no
  socket fails inside one (`HonestStep`).
- The client asks only while no request of its peer's is pending
  (src/peer_connection.cpp:592-602), and nothing takes a request off the queue.
  So one REQUEST message stops all asking over that connection: until it closes
  no piece changes but the one that was open (`RequestStalls`, `LogStalls`,
  `RequestStallsAll`). `CanAskIff` says exactly when it can ask.
- A HAVE message is answered with INTERESTED when the client had the piece
  itself, not when it lacks it (src/peer_connection.cpp:379-386). So a client
  that had none asks for nothing until it hears a bitfield, whatever its peer
  announces (`HaveAttractsNone`).
- A request covers its piece only if the 32-bit product of piece length and
  index does not wrap, and the piece length is a multiple of 16384 or the piece
  is the last (`RequestIsPieceIff`, `ShortPieceOverruns`, `LargeTorrentWraps`).
  `WellCut` collects what the results about whole torrents ask of a torrent.
- The count of blocks left stays right only while no block is repeated, unless
  one block was left (`ExactIff`, `RepeatBreaksCount`); over whole runs it is
  right when none is (`RunExact`).
- A PIECE message uses up the bytes of its block, whatever length it announces
  (`ConsumedIff`, `ShortPieceMisread`).
- A bitfield is sent with a length computed from the list of pieces
  (`SentIsWireIff`, `ShortBitfieldMisframed`), and an empty one is never
  received (`EmptyBitfieldLost`).
- The info hash covers as many bytes as the length of the info entry says when
  it is passed as an int, which is all of them exactly below 2^31
  (`HashedPartIff`).
- Keys are printed up to their first NUL byte (`EncodingIffNulFree`,
  `NulKeysCollide`).

One difference from the protocol is only modelled: a PORT message carries a port
of four bytes (src/peer_msg.cpp:286-287), where BEP 5 has two.

## Assumptions

- Connections run one at a time, because each is joined right after its creation
  (src/peer_connection.cpp:616-621).
- No file is empty, because mapping an empty file fails
  (src/dnld_file.cpp:30-36), the files are mapped into separate memory, and
  together they are shorter than 2^63 bytes.
- `Sha1Stream.Context.Update` takes fewer than 2^32 - 63 bytes at a time, as the
  32-bit sums at src/sha1.cpp:209-212 need. The length field is the bit length
  modulo 2^64; the standard defines the hash only below that.
- The host is little-endian. `size_t`, `long` and `long long` have 64 bits and
  `unsigned` has 32; wrap-around is modelled where the code can reach it.
- Bencoded text is well-formed, with canonical numbers within 64 bits and string
  lengths below 2^63.
- A socket delivers a fixed run of bytes (`inbox`), fails or reports the end of
  the stream once, and may then deliver more of what follows (`later`); it takes
  a fixed number of bytes (`room`) before it fails to send. How it splits the
  bytes between calls is open. How many messages are found queued in each turn,
  and after how many turns a connection is gone, are parameters.

## Model

| member | source | states |
|---|---|---|
| `Sha1Spec.ZeroBytesLeast` | src/sha1.cpp:250-256 | the zero bytes of section 5.1.1 of FIPS 180-4 are the fewest that bring the message to 56 modulo 64, which is the condition the padding loop waits for |
| `Sha1Spec.HashBlocksPrefix` | src/sha1.cpp:198-220 | the hash value after n blocks does not depend on what follows them, so a prefix can be hashed before the rest is known |
| `Sha1Vectors.ConstantsAreRoots` | src/sha1.cpp:40-54 | the round constants are the integer square roots of n 2^60 for n = 2, 3, 5 and 10, for rounds 0-19, 20-39, 40-59 and 60-79 (section 4.2.1 of FIPS 180-4) |
| `Sha1Vectors.PaddedIs` | src/sha1.cpp:250-256 | what is hashed is the message, 0x80, zeros, and 8 times its length as eight bytes, most significant first, in whole blocks of 64 and in as few as hold it |
| `Sha1Vectors.OneMoreBlock` | src/sha1.cpp:209-216 | the value starts at the standard's, and every further block is compressed into the value of those before it |
| `Sha1Vectors.DigestIs` | src/sha1.cpp:257-260 | the digest is the five words in order, each with its most significant byte first |
| `Sha1Vectors.AbcDigest` | src/sha1.cpp:59-272 | the digest of "abc" is a9993e36 4706816a ba3e2571 7850c26c 9cd0d89d, the example of the standard |
| `Sha1Rounds.SwapIsWord` | src/sha1.cpp:26-27 | the two masked rotations of blk0 turn a word read by a little-endian host into the big-endian word of the standard |
| `Sha1Rounds.ChoiceIsCh` | src/sha1.cpp:41-44 | the expression in R0 and R1 is Ch of section 4.1.1 |
| `Sha1Rounds.MajorityIsMaj` | src/sha1.cpp:50 | the expression in R3 is Maj of section 4.1.1 |
| `Sha1Rounds.Blk` | src/sha1.cpp:34-36 | when the circular array holds the last 16 schedule words, the masked-index recurrence writes word i of the 80-word schedule into slot i modulo 16 and nothing else |
| `Sha1Rounds.R0` | src/sha1.cpp:40-42 | one round with rotated argument roles takes the registers and the array from the standard's state i to state i + 1, for rounds 0 to 15 |
| `Sha1Rounds.R1` | src/sha1.cpp:43-45 | the same for rounds 16 to 19 |
| `Sha1Rounds.R2` | src/sha1.cpp:46-48 | the same for rounds 20 to 39, whose constant is 0x6ED9EBA1, the integer square root of 3 times 2^60 |
| `Sha1Rounds.R3` | src/sha1.cpp:49-51 | the same for rounds 40 to 59 |
| `Sha1Rounds.R4` | src/sha1.cpp:52-54 | the same for rounds 60 to 79, whose constant is 0xCA62C1D6, the integer square root of 10 times 2^60 |
| `Sha1Rounds.StateAtHolds` | src/sha1.cpp:25-36 | at every round t the circular array holds the last 16 computed schedule words, and raw words in the slots not yet reached |
| `Sha1Rounds.TraceExists` | src/sha1.cpp:86-166 | for every hash value and block there is a trace of 81 states in which the registers make the steps of section 6.1.2 and the array holds the schedule |
| `Sha1Rounds.EightyRounds` | src/sha1.cpp:86-166 | the 80 unrolled rounds lead from the first state of that trace to the last |
| `Sha1Rounds.Transform` | src/sha1.cpp:59-178 | the state becomes the standard's hash value after one more block, for every state and every 64 bytes |
| `Sha1Stream.CountCarry` | src/sha1.cpp:204-207 | the two 32-bit words, added with the carry test, stay 8 times the length modulo 2^64 |
| `Sha1Stream.TailLength` | src/sha1.cpp:208 | the low word gives the length modulo 64, although it has lost its high bits |
| `Sha1Stream.Context.constructor` | src/sha1.cpp:182-194 | a new context satisfies the invariant for the empty message |
| `Sha1Stream.Context.AddCount` | src/sha1.cpp:204-208 | the count grows by the added bits, and the number returned is how many bytes were waiting in the buffer |
| `Sha1Stream.Context.AbsorbBlocks` | src/sha1.cpp:209-216 | completing the buffered block and hashing whole blocks from the data gives the hash value of all whole blocks of the message |
| `Sha1Stream.Context.Absorb` | src/sha1.cpp:209-219 | afterwards the state is the fold of the full blocks and the buffer holds the tail |
| `Sha1Stream.Context.Update` | src/sha1.cpp:198-220 | the invariant holds again and the message hashed so far has grown by exactly the bytes passed in; any sequence of calls therefore hashes the concatenation |
| `Sha1Stream.Context.UpdateZeros` | src/sha1.cpp:252-255 | the padding loop ends for every message length and appends exactly the zero bytes of the standard |
| `Sha1Stream.Context.CountBytes` | src/sha1.cpp:244-248 | the eight bytes are the bit length, most significant byte first, as it was before padding |
| `Sha1Stream.Context.Finish` | src/sha1.cpp:224-264 | the digest is SHA-1 of the whole message by the standard's definition |
| `Sha1Stream.Sha1Compute` | src/sha1.cpp:266-272 | feeding a string byte by byte gives SHA-1 of its first len bytes, and of nothing when len is negative |
| `FileLayout.FlatSlice` | src/piece_request.cpp:57-62 | a slice of one file is a slice of the concatenated files |
| `FileLayout.FlatIs` | src/piece_request.cpp:10-23 | the whole is the files, each behind the ones before it and starting where they end |
| `FileLayout.GatherIsSlice` | src/piece_request.cpp:51-76 | the bytes of segments that cover from..to, taken in order, are exactly bytes from..to of the concatenated files |
| `FileLayout.CoversExactly` | src/piece_request.cpp:51-76 | such segments hold a file byte if and only if its place lies in from..to |
| `FileLayout.FlatWrite` | src/peer_msg.cpp:613-622 | writing into one file is one write at the right place of the concatenated files and leaves all other bytes alone |
| `PieceRequest.SkipUntilIndex` | src/piece_request.cpp:4-26 | the cursor stops at the 32-bit product of piece length and index, or behind the last file when the files are shorter |
| `PieceRequest.NextBlockRequest` | src/piece_request.cpp:28-80 | the block starts where the cursor stood, holds the next 16384 bytes or all that is left of the files, over as many files as needed and without gap; none is returned exactly when left is 0 or the files are used up |
| `PieceRequest.LeftTells` | src/piece_request.cpp:45-73 | the unsigned left still tells how much has been covered after it has wrapped around |
| `PieceRequest.WalkStep` | src/piece_request.cpp:92-100 | what one turn of the walk knows of left is enough to tell whether the walk is over and where and how long the next block is |
| `PieceRequest.PieceRequestCreate` | src/piece_request.cpp:82-105 | the walk ends, and its blocks cut the range it covers into blocks that begin at multiples of 16384, are in order, and miss and repeat nothing |
| `PieceRequest.PieceRequestBlockAt` | src/piece_request.cpp:107-121 | the first block that begins at the offset, and none exactly when no block does |
| `PieceRequest.BlockCovers` | src/piece_request.cpp:45-78 | block k begins at 16384 k, is 16384 long unless it is the last, and its segments cover exactly its bytes |
| `PieceLayout.RequestIsPieceIff` | src/piece_request.cpp:7-100 | the request for a piece that exists covers exactly that piece if and only if the product stays below 2^32 and the piece length is a multiple of 16384 or the piece is the last |
| `PieceLayout.ShortPieceOverruns` | src/piece_request.cpp:64-73 | with a piece length of 10000 the request for piece 0 runs over into piece 1 |
| `PieceLayout.LargeTorrentWraps` | src/piece_request.cpp:7 | in a torrent of more than 2^32 bytes piece 262144 is looked for at the start |
| `PieceLayout.WalkPartition` | src/piece_request.cpp:82-105 | a byte lies in the range of a request if and only if it lies in one of its blocks, and never in two |
| `PieceLayout.Partition` | src/piece_request.cpp:82-105 | over all pieces together every byte of every file lies in exactly one block of one piece |
| `PieceLayout.PiecesDisjoint` | src/piece_request.cpp:7 | the byte ranges of different pieces do not meet |
| `PieceLayout.BlockBegins` | src/piece_request.cpp:107-121 | only one block of a request can begin at a given offset, and it is block offset / 16384 |
| `Torrent.CreatePiecesVector` | src/torrent_info.cpp:8-19 | hash i is bytes 20 i to 20 i + 20 of the metainfo string, and there are no others; it fails exactly for an empty string or a length that is not a multiple of 20 |
| `Torrent.TorrentInfo.constructor` | src/torrent_info.cpp:210-217 | every piece starts as not requested, all of them are left, and the download is not complete |
| `Torrent.TorrentInfo.MakeBitfield` | src/torrent_info.cpp:225-241 | a bit is set if and only if the client has the piece |
| `Torrent.TorrentInfo.NextRequest` | src/torrent_info.cpp:243-284 | picks the least piece not requested that the peer has, else the greatest requested one, else none; only the picked piece changes state |
| `Torrent.TorrentInfo.HandlePieceDnldCompletion` | src/peer_connection.cpp:261-290 | the piece becomes HAVE; the count of pieces left drops by one unless it was HAVE before; completion is set when the count reaches 0 |
| `Torrent.TorrentInfo.HashSegments` | src/torrent_info.cpp:303-309 | hashing segment by segment adds to the message exactly the bytes the segments gather |
| `Torrent.TorrentInfo.HashBlocks` | src/torrent_info.cpp:299-310 | hashing block by block adds exactly the bytes of the range the blocks cover |
| `Torrent.TorrentInfo.Sha1Verify` | src/torrent_info.cpp:286-317 | true if and only if SHA-1 of the bytes the request covers equals the advertised hash, although they are fed segment by segment |
| `Bitfield.Set` | src/bitfield_macro.h:18-22 | sets one bit and leaves every other bit of the buffer alone |
| `Bitfield.Masks` | src/bitfield_macro.h:21 | bit 0 of a byte is its most significant bit and bit 7 its least |
| `Bitfield.Clear` | src/bitfield_macro.h:24-28 | clears one bit and leaves every other bit alone |
| `Bitfield.PacksUnique` | src/peer_msg.cpp:230-237 | a bitfield has only one packing: most significant bit first, spare bits zero |
| `Bitfield.Pack` | src/peer_msg.cpp:226-237 | packs any number of bits into that packing |
| `Bitfield.UnpackPack` | src/peer_msg.cpp:374-383 | unpacking what was packed gives the bits back, followed by zeros for the spare bits |
| `Socket.PeerSendBuff` | src/peer_msg.cpp:14-34 | however send splits the bytes, it succeeds if and only if the socket has room for all of them; then the peer has been told exactly these bytes more, and otherwise the first of them, as many as there was room for |
| `Socket.PeerRecvBuff` | src/peer_msg.cpp:36-63 | however recv splits the bytes, it succeeds if and only if the stream has that many before it fails (and more than none were asked for), and has filled the buffer with as many as there were; the rest of the buffer is unchanged |
| `PeerMsg.SentIsWireIff` | src/peer_msg.cpp:191-230 | what is sent is the message as BEP 3 has it if and only if the bitfield is as long as the list of pieces; the length prefix is computed from the list, not from the bitfield |
| `PeerMsg.ShortBitfieldMisframed` | src/peer_msg.cpp:191-230 | a bitfield of eight bits in a torrent of nine pieces is sent with a wrong length |
| `PeerMsg.RoundTrip` | src/peer_msg.cpp:180-475 | a sent message decodes to itself, with exactly the rest of the stream left, whatever follows it |
| `PeerMsg.StreamRoundTrip` | src/peer_msg.cpp:180-475 | the bytes of any sequence of sent messages decode to the same sequence, with exactly what follows them left |
| `PeerMsg.EmptyBitfieldLost` | src/peer_msg.cpp:159-160 | with no pieces at all the empty bitfield is sent but never received, because a read of zero bytes fails |
| `PeerWire.PeerMsgSend` | src/peer_msg.cpp:180-304 | succeeds if and only if there is room for the whole message, and has sent as much of it as there was room for; what the bytes of each message are is `SentAsBytes` |
| `WireFormat.SentAsBytes` | src/peer_msg.cpp:180-304 | the bytes sent for every kind of message: the length in four bytes, the identifier (CHOKE 0, UNCHOKE 1, INTERESTED 2, NOT INTERESTED 3, HAVE 4, BITFIELD 5, REQUEST 6, PORT 9), and the payload; a REQUEST has the index, the begin and the length in this order |
| `WireFormat.FourBytes` | src/peer_msg.cpp:183-194 | integers have four bytes, the most significant first, as they are sent and as they are read |
| `WireFormat.BitsAre` | src/bitfield_macro.h:9-28 | piece i is the bit of value 128 >> i mod 8 in byte i / 8, there are as few bytes as hold the bits, and spare bits are 0 |
| `WireFormat.BitsRead` | src/peer_msg.cpp:374-383 | and bits are read from a bitfield by the same values |
| `PeerWire.SendMessages` | src/peer_msg.cpp:180-304 | a loop of sends succeeds if and only if there is room for all the messages, and has sent their bytes one after the other, as many as there is room for |
| `PeerWire.FilledIsSplice` | src/peer_msg.cpp:603-622 | a block that arrived whole is one flat write of the next bytes of the stream |
| `PeerWire.FilledIsWritten` | src/peer_msg.cpp:603-622 | whether or not the stream gave out, what has been done to the files is one flat write of the length of the block |
| `PeerWire.RecvBlock` | src/peer_msg.cpp:613-622 | the loop over the segments of a block is one flat write of the stream's next bytes; whatever fails, bytes outside the block are unchanged |
| `PeerWire.FindBlock` | src/peer_msg.cpp:603-609 | a block is found if and only if one of the request begins at the offset named, and its segments cover exactly its bytes |
| `PeerWire.PieceIsRead` | src/peer_msg.cpp:580-625 | the bytes of a PIECE message for a block are read as that message, whatever follows them |
| `PeerWire.PeerMsgRecvPiece` | src/peer_msg.cpp:580-625 | the index and begin are the next two integers of the stream, and the block they name has been filled with the bytes after them, as far as the stream has them; it fails if and only if the stream gives out before the block, and aborts if and only if there is no such block; bytes outside the block are unchanged |
| `PeerWire.ConsumedIff` | src/peer_msg.cpp:601-622 | receiving a block uses up as many bytes as the message announced if and only if the announced length is the block's length |
| `PeerWire.ShortPieceMisread` | src/peer_msg.cpp:601-622 | a PIECE message that brings one byte of a block of 16384 takes 16383 bytes of what follows it |
| `PeerWire.PeerMsgRecvPastLen` | src/peer_msg.cpp:317-459 | fails, aborts or gives a message exactly as the bytes of the stream say, as `ReadFromBytes` and `ReadBitfieldFromBytes` spell out; a PIECE message of an allowed length fills its block and uses up the bytes of the block; any other message is decoded from exactly the bytes used up, and the files are unchanged |
| `PeerWire.PeerMsgRecv` | src/peer_msg.cpp:461-475 | the same, with the length read from the stream |
| `WireFormat.ReadFromBytes` | src/peer_msg.cpp:317-475 | the message read from the bytes of every kind of message but BITFIELD and PIECE, whatever follows them: type byte 0 is CHOKE, 1 is UNCHOKE, and so on |
| `WireFormat.ReadBitfieldFromBytes` | src/peer_msg.cpp:364-391 | a type byte 5 and as many bytes as the pieces need are read as the bits of these bytes |
| `WireFormat.RefusedBytes` | src/peer_msg.cpp:330-345 | a type byte of 10 or more is refused; a CANCEL message fails an assertion |
| `WireFormat.LengthsAre` | src/peer_msg.cpp:143-178 | the lengths that each type may announce, in numbers; a bitfield has the fewest bytes that hold a bit for each piece |
| `WireFormat.PieceBytesAre` | src/peer_msg.cpp:580-625 | a PIECE message is its length, 7, the index, the begin and the block, in this order |
| `PeerWire.ReadingIsDecode` | src/peer_msg.cpp:317-475 | a message other than PIECE is received if and only if the stream decodes, as what it decodes to, with exactly its bytes used up |
| `PeerWire.RecvMessages` | src/peer_msg.cpp:461-475 | a loop of receives gives the messages that the stream decodes to, and leaves exactly what follows them |
| `PeerWire.Exchange` | src/peer_msg.cpp:180-475 | what a loop of sends writes to one socket a loop of receives reads from another as the same messages in the same order, with exactly what follows them left, however the sockets split the bytes |
| `PeerWire.PeerSendHandshake` | src/peer_msg.cpp:66-94 | sends the 68 bytes of the handshake, or some first part on failure |
| `PeerWire.PeerRecvHandshake` | src/peer_msg.cpp:96-141 | succeeds only on the protocol string, and then returns bytes 28 to 48 as the hash, and the 20 bytes behind them as the identifier when asked for; it fails only with the socket or on another string |
| `PeerWire.HandshakeRoundTrip` | src/peer_msg.cpp:66-141 | what one side sends is accepted by the other with exactly the hash and identifier that were sent |
| `WireFormat.HandshakeIs` | src/peer_msg.cpp:66-94 | the 68 bytes: 19, "BitTorrent protocol", eight zeros, the hash, the identifier |
| `PeerConnection.ConnState.constructor` | src/peer_connection.cpp:187-212 | a connection starts choked and not interested on both sides, without open requests, and with the pieces the client has |
| `PeerConnection.MarkBlock` | src/peer_connection.cpp:309-321 | marks the first block that has this begin and length and takes one off the count, or changes nothing when there is none |
| `PeerConnection.CheckPiece` | src/peer_connection.cpp:327 | the check succeeds if and only if SHA-1 of the bytes from piece length times index to the next piece, or the end of the files, is the advertised hash |
| `PeerConnection.FinishPiece` | src/peer_connection.cpp:323-343 | a piece becomes HAVE if and only if its hash is right, and is given back otherwise; in the first case the peer is told HAVE with its index, as far as there is room, and in the second nothing |
| `PeerConnection.ProcessPieceMsg` | src/peer_connection.cpp:298-349 | takes the machine's step for a PIECE message, keeps the invariant, and tells the peer HAVE with the index, as far as there is room, when the piece has become HAVE in this call, and nothing otherwise |
| `PeerConnection.SendRequests` | src/peer_connection.cpp:461-511 | with a request open it changes and sends nothing; otherwise it opens one for the piece i that torrent_next_request picks, which the client does not have, and with room for it sends as many REQUEST messages as the piece has blocks, the k-th for block k: index i, begin 16384 k, and the length of the block; it succeeds if and only if they fit; when there is nothing to ask an interested client tells the peer NOT INTERESTED, and is not from then on if that was sent |
| `PeerConnection.AskedOnce` | src/peer_connection.cpp:488-503 | every byte of a piece lies in exactly one of these requests, and no byte behind its end in any |
| `PeerConnection.ProcessBitfield` | src/peer_connection.cpp:388-413 | the peer's bits are copied, and the client is interested if and only if the peer has a piece that the client lacks |
| `PeerConnection.ProcessOther` | src/peer_connection.cpp:356-435 | what each message other than PIECE does to every field of the connection; the peer is told INTERESTED on a BITFIELD message exactly when it has a piece that the client lacks, on a HAVE message exactly when the client was not interested and had that piece itself when the connection began, and nothing otherwise |
| `PeerConnection.ProcessMsg` | src/peer_connection.cpp:351-439 | every message takes the machine's step for it, keeps the invariant, and is answered, as far as there is room, with HAVE for a piece that has become HAVE in this call, or with INTERESTED as above, and with nothing else |
| `PeerConnection.BitfieldArrives` | src/peer_connection.cpp:388-394 | packing, sending, receiving and applying a bitfield sets the peer's bits to those that were sent, for every number of pieces above 0 |
| `PeerConnection.StoredIsStep` | src/peer_msg.cpp:603-622 | a block received for a piece that exists is the machine's Write step, also when the socket failed half-way, and for a piece that does not exist it is the Stray step; its bytes are the stream's as far as the stream had them |
| `PeerConnection.StrayPieceIsHeard` | src/piece_request.cpp:7 | a PIECE message for piece 262144, in a torrent with pieces of 16384 bytes that has no such piece, is read as a block that is written over the start of the files |
| `DownloadMachine.InitInv` | src/torrent_info.cpp:210-217 | the state torrent_init leaves satisfies the invariant and is safe |
| `DownloadMachine.StepInv` | src/peer_connection.cpp:261-349 | every step keeps the invariant: pieces left is the number of pieces not HAVE, complete holds exactly when it is 0, the open request is for a REQUESTED piece and never believes more blocks left than are missing |
| `DownloadMachine.StepMonotone` | src/peer_connection.cpp:271-281 | HAVE never reverts; pieces left never rises, and drops by one exactly when a piece becomes HAVE |
| `DownloadMachine.PiecesAre` | src/piece_request.cpp:82-105 | the pieces and blocks in numbers: piece i is bytes from piece length times i to the next piece or the end, its block k the 16384 bytes, or what is left, from 16384 k on |
| `DownloadMachine.ArriveMeans` | src/peer_connection.cpp:298-349 | what a PIECE message does to the state, in its own terms: it counts for the open request if it names the piece, the place of one of its blocks and that block's length; with none left the piece becomes HAVE if the hash of its bytes is right, and NOT REQUESTED otherwise |
| `DownloadMachine.HearMeans` | src/peer_connection.cpp:356-435 | what any other message does to the state, in its own terms |
| `DownloadMachine.AskMeans` | src/peer_connection.cpp:461-511 | what asking does to the state, in its own terms: the picked piece is REQUESTED with all of its blocks open, and without one the client is no longer interested once it has said so |
| `DownloadSafety.WriteFrame` | src/peer_msg.cpp:613-622 | a write leaves the bytes of every piece it does not touch alone |
| `DownloadSafety.BlockTouchesOne` | src/piece_request.cpp:82-105 | a block of one piece touches no other |
| `DownloadSafety.WriteSafeIff` | src/peer_msg.cpp:603-622 | a write, of a block of any piece or of one that does not exist, keeps all HAVE pieces right if and only if those it touches still have their hashes |
| `DownloadSafety.HarmlessIff` | src/peer_msg.cpp:603-622 | when the hash function tells the old bytes of a piece from the new ones, that is so if and only if the write changes no byte of a HAVE piece, which can be told before it |
| `DownloadSafety.MissingPieceIsHarmless` | src/peer_msg.cpp:603-622 | a block of a piece that is not HAVE changes no byte of one that is |
| `DownloadMachine.RunInv` | src/peer_connection.cpp:513-612 | the invariant holds in every state of every run |
| `DownloadMachine.PickExact` | src/torrent_info.cpp:255-283 | there is only one right choice of the next piece, and it is none if and only if the client has every piece that the peer has |
| `DownloadMachine.PickExists` | src/torrent_info.cpp:255-283 | and there always is one |
| `DownloadMachine.PickMeans` | src/torrent_info.cpp:255-283 | it is the least piece not requested that the peer has, or else the greatest requested one, or else none |
| `DownloadSafety.RunSafe` | src/peer_connection.cpp:513-612 | over every run in which no write changes a byte of a HAVE piece, every HAVE piece has the advertised hash, and a complete download has all of them |
| `DownloadSafety.RunSafeIff` | src/peer_connection.cpp:513-612 | when the hash function tells what each write changes of a piece, every state of a run is safe if and only if no write of the run changes a byte of a HAVE piece |
| `DownloadSafety.RunAskedSafe` | src/peer_connection.cpp:513-612 | over every run in which peers send blocks, right or wrong, of the piece they are asked for, every HAVE piece has the advertised hash |
| `DownloadSafety.OverwriteBreaksSafety` | src/peer_msg.cpp:613-622 | without that condition the property fails, for every hash function that tells two blocks apart: in a run over a torrent of two pieces, from a peer that has sent its bitfield and UNCHOKE, with one piece HAVE and the other not, a block for the HAVE piece, and just so one for a piece that does not exist, is written over it |
| `DownloadHonest.ExactIff` | src/peer_connection.cpp:314-321 | a PIECE message keeps the count of blocks left equal to the number of missing blocks if and only if it does not repeat a block, or only one was left |
| `DownloadHonest.RunExact` | src/peer_connection.cpp:314-321 | over every run in which no block is repeated within a request, the count of blocks left is the number of missing blocks |
| `DownloadHonest.RepeatBreaksCount` | src/peer_connection.cpp:314-321 | in a run in which the first of three blocks arrives twice the count says that one is missing where two are |
| `DownloadHonest.CheckedAtLastBlock` | src/peer_connection.cpp:323-346 | when no block is repeated the hash is checked exactly when the last missing block has arrived |
| `DownloadHonest.HonestStep` | src/peer_connection.cpp:327-335 | when every block that is announced is in place, and is announced once, no hash check fails: no piece asked for is given back, and an open request ends with its piece or its peer |
| `DownloadHonest.HonestHave` | src/peer_connection.cpp:327-342 | in such steps a piece becomes HAVE only with its original bytes, and keeps them |
| `DownloadHonest.HonestRun` | src/peer_connection.cpp:513-612 | over every run of such steps no piece asked for is given back, every HAVE piece holds the original bytes, and a complete download is the original |
| `DownloadHonest.GivenBackIff` | src/peer_connection.cpp:323-343 | when the hash function tells the piece from the original, a request that ends makes its piece HAVE if and only if all of its blocks are in place, and gives it back otherwise |
| `DownloadHonest.TornBlockGivesBack` | src/peer_msg.cpp:619-621 | a block of which only a part arrived, because the socket failed, counts as arrived: the hash check fails and the piece is given back although the peer sent true bytes |
| `DownloadHonest.HonestDelivery` | src/peer_connection.cpp:304-346 | a peer that answers every missing block once, in any order, gives the client the piece |
| `DownloadHonest.RoundExists` | src/peer_connection.cpp:469-485 | while pieces are left and the client may ask a peer that has every piece there is a piece to ask for, and a round of asking for it and getting its blocks |
| `DownloadHonest.HonestRounds` | src/peer_connection.cpp:513-612 | each round of asking such a peer for a piece and getting its blocks gains one piece; after as many rounds as pieces were left, and not before, the download is complete and is the original |
| `DownloadHonest.RoundSteps` | src/peer_connection.cpp:513-612 | a round is a sequence of steps of the machine, each of them honest |
| `DownloadHonest.CanComplete` | src/peer_connection.cpp:513-612 | from every state that honest peers have led to, in which the client may ask a peer that has every piece, there are honest steps that complete the download, and then it is the original |
| `DownloadHonest.FreshDownloadCompletes` | src/peer_connection.cpp:513-612 | in particular there is such a run from the state torrent_init leaves, which begins with the bitfield and UNCHOKE of the peer |
| `Courtesy.PieceKeeps` | src/peer_connection.cpp:298-349 | receiving and processing one PIECE message keeps a download safe when the message changes no byte of a piece that has its hash, and keeps it true to the original when the message brings the original bytes of a block that the connection has not named before |
| `Asking.CanAskIff` | src/peer_connection.cpp:592-602 | the client can ask if and only if it has no request open, is not choked, has told of its interest, and no request of the peer's is pending |
| `Asking.ChokeStops` | src/peer_connection.cpp:592-602 | over any run, a choked client asks for nothing until it hears UNCHOKE |
| `Asking.RequestStalls` | src/peer_connection.cpp:414-421 | once a request of the peer's is pending the client asks for nothing more over that connection, and no piece changes but that of the open request |
| `Asking.RequestStallsAll` | src/peer_connection.cpp:414-421 | a run in which a peer that has everything sends its bitfield, UNCHOKE and a REQUEST message, after which the client cannot ask although it has nothing |
| `Asking.HaveAttractsNone` | src/peer_connection.cpp:379-386 | until a bitfield is heard a client that had no piece when the connection began asks for nothing, whatever HAVE messages it hears |
| `Course.LogIsRun` | src/peer_connection.cpp:513-612 | the moves of a record are a run of the machine from its first state to its last |
| `Course.LogStalls` | src/peer_connection.cpp:592-602 | once a request of the peer's is pending a connection only hears messages, and no piece changes but that of the open request |
| `Course.MoveGoes` | src/peer_connection.cpp:441-511 | whatever a connection hears or asks keeps a download well as long as the stream is well-behaved |
| `Course.ConnectionKeeps` | src/peer_connection.cpp:558-612 | a whole connection to a well-behaved peer leaves a download as well as it found it, wherever it ends, and the files hold what some first part of the stream makes of them |
| `Client.ReceiveAndProcess` | src/peer_connection.cpp:448-456 | the message that is next in the stream is heard: a PIECE message writes the bytes behind it at the place that its index and begin name and then arrives, any other is processed, both as the machine has it, with the answer it calls for; nothing is heard if and only if none can be read or a HAVE message names no piece |
| `Client.ProcessQueued` | src/peer_connection.cpp:441-459 | the next messages of the stream, as many as are queued, are heard one after the other in their order, and nothing else happens, unless the client gets stuck before |
| `Client.Turn` | src/peer_connection.cpp:578-609 | a turn is the queued messages of the stream in their order and then one Ask, if and only if the client may ask and has no request open; it ends well if and only if it has not got stuck, all it had to send for a piece has been sent, and the download is not complete |
| `Client.Greet` | src/peer_connection.cpp:565-576 | the messages that open a connection are the initial bitfield with no bit set and then UNCHOKE |
| `WireFormat.GreetingIs` | src/peer_connection.cpp:565-576 | in bytes: a BITFIELD message of zeros, with as many bytes as the pieces need, and 00 00 00 01 01 |
| `Client.RunConnection` | src/peer_connection.cpp:558-612 | a whole connection is its opening, with the greeting as far as there is room, turn after turn until one does not end well or there are no more, and its end; it hears the peer's stream in its order, leaves the invariant, and its record knows what the peer has been told |
| `Downloader.Download` | src/bt_downloader.cpp:114-117 | the connections of a download, one after the other, are a record of moves and a run of the machine; if, as sockets and files are beforehand, no PIECE message changes a byte of a piece that has its hash by then, every HAVE piece has the advertised SHA-1 hash at the end, and a complete download has all of them; if the streams hold the original's blocks, none twice over a connection, and no socket fails inside one, every HAVE piece and a complete download are the original |
| `Seed.TurnHears` | src/peer_connection.cpp:441-459 | a turn hears all the blocks that the turn before has asked for, and gains their piece |
| `Seed.FetchTurn` | src/peer_connection.cpp:578-609 | and asks for the next piece, or leaves the complete original |
| `Seed.SeedCompletes` | src/peer_connection.cpp:558-612 | a connection whose peer sends its bitfield, UNCHOKE and every block as it is asked for, with room for all that the client sends, ends with a complete download that is the original |
| `Seed.SaidIsSent` | src/peer_connection.cpp:488-503 | what the client says to such a peer is the bytes of these messages, one after the other |
| `Seed.DownloadFromSeed` | src/peer_connection.cpp:558-612 | in particular the client, run against such a peer from the start, ends with the original in its files, and the peer has been told exactly the greeting, INTERESTED, and for every piece in turn a REQUEST for each of its blocks, in order, and then HAVE |
| `BencodeText.DecRoundTrip` | src/bencode_encoder.cpp:53 | a printed number reads back as itself |
| `BencodeText.PrefixFree` | src/bencode_encoder.cpp:51-89 | no text of a value begins the text of another: the value and the rest are determined by the text |
| `BencodeFormat.TextIs` | src/bencode_encoder.cpp:51-89 | a string is its length, ":" and its bytes; an integer is "i", its numeral and "e"; a list is "l", its items and "e"; a dictionary is "d", its entries and "e" |
| `BencodeFormat.NumeralIs` | src/bencode_encoder.cpp:53 | a numeral is its decimal digits, the highest first, behind "-" when negative |
| `BencodeFormat.DigitIs` | src/bencode_parser.cpp:84-93 | the digits are those of ASCII |
| `BencodeOrder.UpperBound` | src/bencode_dict.cpp:18-22 | a new entry goes behind every key that is not greater and before every key that is |
| `BencodeFormat.LessIs` | src/bencode_dict.h:13-14 | a key is less than another if and only if it has the lower byte at the first place where they differ, or is a proper prefix of it |
| `BencodeOrder.SelectInsert` | src/bencode_dict.cpp:18-22 | an insertion is last among the entries of its key and leaves those of other keys as they were |
| `BencodeOrder.SortIsStable` | src/bencode_dict.cpp:18-22 | inserting entry after entry leaves them in key order, with the entries of each key in the order they came |
| `BencodeOrder.StableSortUnique` | src/bencode_dict.cpp:18-22 | there is only one such sequence |
| `BencodeOrder.NormIdempotent` | src/bencode_parser.cpp:79-147 | parsing what was parsed and printed changes nothing more |
| `BencodeOrder.TextOfNormIff` | src/bencode_parser.cpp:79-147 | the parsed value has the text it was parsed from if and only if all dictionaries are in key order |
| `BencodeDict.BencodeDict.InsertToDict` | src/bencode_dict.cpp:18-22 | the entry is inserted behind those of its key, in the order of bytes that `LessIs` states, and the order is kept |
| `BencodeFormat.ParsedKeys` | src/bencode_dict.cpp:18-22 | in a parsed dictionary no key is less, in these terms, than one before it |
| `BencodeFormat.ParsedKeysKept` | src/bencode_dict.cpp:18-22 | it has as many entries as the text, and the values of each key in the order of the text |
| `BencodeRead.NumberIs` | src/bencode_parser.cpp:95-107 | a canonical number followed by something else reads back as itself and the end pointer stops right behind it |
| `BencodeParser.StrToL` | src/bencode_parser.cpp:95 | the longest run of digits behind white space and a sign, as a number kept within long; the end is the start when there is none |
| `BencodeFormat.SkippedAre` | src/bencode_parser.cpp:95 | what is skipped is exactly space and the bytes 9 to 13, and one plus sign in front of a digit |
| `BencodeFormat.LongIs` | src/bencode_parser.cpp:95 | a number stands as it is if and only if it is one of -2^63 to 2^63 - 1, and otherwise becomes the bound |
| `BencodeParser.LongThroughSize` | src/bencode_parser.cpp:107-110 | a number that fits survives being stored in a size_t and read as a long long, also when it is negative |
| `BencodeParser.PointerParser.ParseDict` | src/bencode_parser.cpp:125-142 | reads the entries in the order of the text and files them in key order |
| `BencodeParser.PointerParser.Parse` | src/bencode_parser.cpp:79-147 | on the text of any value, at any place and with anything behind it, gives that value with every dictionary stably sorted, leaves the end pointer exactly behind the text, and ends |
| `BencodeParser.StreamParser.Parse` | src/bencode_parser.cpp:14-76 | the same value from a stream, and the same number of bytes taken |
| `BencodeParser.ParseMemory` | src/bencode_parser.cpp:8-12 | the value is determined by the text alone |
| `BencodeParser.ParseFile` | src/bencode_parser.cpp:3-6 | the same for a file, so both parsers agree on every well-formed input |
| `BencodeEncoder.Encoder.Crawl` | src/bencode_encoder.cpp:51-89 | appends the encoding of the value to what has been printed |
| `BencodeEncoder.EncodingIffNulFree` | src/bencode_encoder.cpp:76-89 | what is printed is the text of the value if and only if no dictionary key contains a NUL byte, and is shorter otherwise |
| `BencodeFormat.CStrIs` | src/bencode_encoder.cpp:84 | what is printed of a key is its longest first part without a NUL byte |
| `BencodeFormat.KeyIs` | src/bencode_encoder.cpp:80-84 | a key is printed as its full length, ":", and that first part |
| `BencodeEncoder.EncodeParsedIff` | src/torrent_info.cpp:188-194 | printing what was parsed gives back the text if and only if every dictionary is in key order and no key contains a NUL byte |
| `BencodeFormat.FiveIsKept` | src/torrent_info.cpp:188-194 | the dictionary d6:lengthi5e4:name1:ae, in canonical order, is printed as these very bytes after it has been parsed |
| `BencodeEncoder.EncodeIsNormalForm` | src/bencode_encoder.cpp:51-89 | printing what was parsed gives the text with every dictionary stably sorted, and parsing and printing that again changes nothing |
| `BencodeEncoder.EncodedLengthIff` | test/bencode_encoder_test.cpp:30-37 | the length that the test compares is kept if and only if no key contains a NUL byte |
| `BencodeEncoder.EncodingReadsBack` | src/bencode_encoder.cpp:51-89 | what is printed can be parsed wherever it stands, and gives the same value back if and only if its dictionaries are in key order |
| `BencodeEncoder.EncodingPrefixFree` | src/bencode_encoder.cpp:51-89 | printing is injective and prefix-free on values without NUL bytes in keys |
| `BencodeEncoder.NulKeysCollide` | src/bencode_encoder.cpp:84 | with NUL bytes in keys it is not: two different dictionaries are printed alike |
| `InfoHash.HashInfo` | src/torrent_info.cpp:192-200 | the hash is SHA-1 of what the encoder prints, of as many bytes as its length says when passed as an int |
| `InfoHash.HashedPartIff` | src/torrent_info.cpp:197-198 | which is all of them if and only if there are fewer than 2^31 |
| `InfoHash.FindInfoHash` | src/torrent_info.cpp:165-208 | the hash kept is that of the last entry with the key info |
| `InfoHash.InfoSurvivesSorting` | src/torrent_info.cpp:162-190 | sorting the dictionary does not change which info entry is the last |
| `InfoHash.MetainfoHash` | src/torrent_info.cpp:188-200 | from a file of any length to the info hash: it is the hash of the bytes of the info entry as they stand in the file, as far as their length fits an int, whenever its dictionaries are in key order (the order of bytes of `LessIs`) and its keys are free of NUL bytes; in a file shorter than 2^31 bytes it is their SHA-1 |

## Left out

- Downloader.Download: the tracker loop around the connections, which only chooses the peers and waits, is a list of connections here.
- Client.RunConnection: the handshake before it is modelled by itself, and not tied to the torrent it selects.
- InfoHash.FindInfoHash: the other metainfo entries that the same loop reads are not modelled.
- Sha1Stream.Context.Finish: wiping the context and the local variables is not modelled.
- Sha1Stream.Sha1Compute: the zero byte written behind the 20 bytes of the result is not modelled.
- Connecting, listening, select, threads, mutexes, message queues, file mapping, renaming and logging are foreign calls.
- Torrent.TorrentInfo.HandlePieceDnldCompletion: when the download is complete `torrent_complete` also unmaps and renames the files; the model sets the completed flag only and keeps the files as they are, so what it says of a block received after that is not about the client.
- `peer_msg_send_piece` and the serving of peers' requests: nothing in the client sends a PIECE message.
- `peer_msg_buff_nonempty` is a look into the socket; how many messages it finds is a parameter.
- CANCEL and PORT messages have no effect in the client; receiving a CANCEL message fails an assertion, and so it does here.
- Several connections at the same time: the client joins each connection before it creates the next.
- The list of open requests holds at most one request, and removing a finished request while walking the list is modelled as emptying it.
- A failed assertion ends the connection in the model; in the client it ends the process.
- Malformed bencoded text: the parsers have no error path for it.
- BencodeParser.Stream.Extract: white space and a plus sign in front of a number, which reading from a stream accepts; canonical numbers have neither.
- Parsed values are modelled as immutable once built; the client shares them by pointer and does not change them afterwards.
- The HTTP and FTP downloaders, URL and header parsing, the tracker request and the compact peer list, and the superseded code under `useless/`.
