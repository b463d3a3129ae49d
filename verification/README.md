# A verified model of the GoTorrentServer client

This project models the download side of the BitTorrent client in
`internal/torrentclient` and proves what it is for: that a download ends with the
content on disk, that no block is queued at two peers at once, that torrent
files and peer messages survive being written and read.

## What is modelled

**The download store** (`bundle.go`, `piece.go`, `block.go`, `bitfield.go`,
`piececache.go`). A torrent is tiled into pieces and pieces into 16 KiB blocks;
blocks are handed out, written and cancelled; a full piece is checked against its
hash; complete pieces are scattered over the files and recorded in a packed
bitfield; blocks are read back through an LRU cache. `PieceSpec`, `Requests`,
`DiskSpec`, `BitfieldSpec`, `CacheSpec` and `BundleSpec` say what each operation
does to the state; `BundleRuns` and `BundleReads` prove what holds after every
run. `Piece`, `Disk`, `Bitfields`, `PieceCaches` and `Bundle` are the classes and
loops of the program, each method proved to make the step its specification says.
The files are seen as one virtual disk, their concatenation.

**Bencoding** (`bencode.go`). `BencodeSpec` has values, their encoding, and what
the tokenizer and the parser compute on any input, errors and panics included;
`BencodeRoundTrip` proves that parsing undoes encoding. `BencodeParts` says of
every input whether it is accepted and as what, `BencodeNesting` and
`BencodeInputs` which are refused and how; `BencodeText` and `BencodeFormat` pin
numbers, the order of keys and the text of each value. `InfoHashSpec` is the
scanner that finds the info dictionary without tokenizing, `InfoHashInputs` what it
makes of files that are no encodings; `Bencode` has the loops.

**Peer messages** (`message.go`, `readMessage` in `peer.go`). `MessageSpec` has
the bytes of each message and what reading a stream makes of them; `WireFormat`
states the same byte by byte; `Wire` has the buffers, and a connection that delivers
the stream in arbitrary portions.

**Session and peers** (`session.go`, `peer.go`). `SessionSpec` is a step system:
each locked section of the session, for one peer where it loops over the peers,
and each thing that can happen inside a peer is one step, in any order. A block
moves from the bundle to the block queue, to a peer's request queue, to its
response or cancelled queue, and back. `SessionSteps` says what each step does to
queue, peers and addresses. `SessionRuns` proves the invariants over every run,
`SessionLosses` when blocks get lost and that they stay lost, `SessionRejections`
what becomes of blocks that peers reject, `SessionSending` which blocks can still be
sent, `SessionBundle` that the bundle below is as sound as on its own. `Peer` and
`Session` are the classes; their methods are proved to be runs of those steps.

## How it is modelled

- SHA-1 is a parameter `H`, any function from byte strings to byte strings.
- A byte is a number below 256; bitfields use 8-bit vectors. Where Go's integer
  width can be reached by input it is written out: the 64-bit length in the
  tokenizer, the 32-bit lengths and fields of messages, the 32-bit comparison of a
  response with a request.
- A clock, a rate or the network becomes a parameter: which requests are late, how
  many a peer may be given (`cap`), after how many bytes the disk fails a write,
  what arrives.
- A Go panic is an outcome (`LexPanics`, `ParsePanics`, `OutOfRange`, `Panicked`,
  `IndexPanic`), and so is the loop of `GetInfoHash` that can go round without
  moving (`Stuck`).
- In `Bencode` the result of each method is a value of the specification; in the
  classes `State()` is the abstract state, and a contract relates the new one to
  the old.
- `Session.CheckResponses` and `Session.Stop` require that what they look at names
  pieces of the bundle; otherwise the program would index out of range. Every run
  establishes it (`Session.EveryRunIsAnswerable`).
- Peers have distinct IDs: a peer that joins has an ID no connected peer has
  (`SessionSpec.Allowed`). `SessionLosses.DropKeepsHoldersExactlyWhen` and
  `SessionLosses.BlockAtTwoPeers` show what happens otherwise.
- A session's pieces and offsets fit the 32 bits of the wire
  (`SessionSpec.Narrow`); `PeerSpec.AnswerNamesTheBlock` shows why.

## Where the code differs from what one would expect

- `NextNBlocks(0)` can return every idle block (`Requests.ZeroLimit`).
- A block that is sent to nobody can be sent to a peer of the session's list if and
  only if one of them has not rejected it (`SessionSending.SendableExactlyWhen`);
  rejected by all, as in `SessionSending.OnePeerRejects`, it waits for a new peer.
- `SetBit` accepts an index equal to the length and never clears `Empty`. A HAVE
  message with that index makes the receiver index out of range if the number of
  pieces is divisible by 8 (`Bitfields.Bitfield.SetBit`). So does a BITFIELD message
  with too few bytes when a piece is looked up (`Bitfields.Bitfield.GetBit`), and one
  with too many when relevance is computed (`Peer.GetRelevance`).
- A disk error on the block that completes a piece leaves the piece complete
  (`BundleRuns.FailedWriteStaysUnwritten`, `BundleRuns.FailingDiskLosesThePiece`).
- Reading a piece before it is complete leaves zeros in the cache
  (`BundleReads.EarlyReadStaysStale`).
- `GetInfoHash` hashes `de` for a dictionary whose info dictionary is not empty and
  stands behind the string `4:infode` (`InfoHashSpec.NeedleInAString`).
- `GetInfoHash` refuses hardly anything: a file without `4:infod` has its last byte
  hashed (`InfoHashInputs.WithoutKeyTheLastByteIsHashed`), one that is cut off can be
  hashed to its end (`InfoHashInputs.UnclosedIsHashedToTheEnd`), and a byte that
  starts nothing makes it loop for ever (`InfoHashInputs.JunkIsNeverPassed`).
- A string length that wraps round to zero or below stands for the empty string
  (`BencodeInputs.WrappedLengthIsEmpty`).
- A PORT message always makes the receiver panic (`MessageSpec.PortPanics`).
- A handshake that arrives in two portions is refused
  (`Wire.HandshakeNeedsOneRead`).
- A peer that closes by itself strands the blocks it holds
  (`SessionLosses.StrandedExactlyWhen`, `SessionLosses.ClosingStrandsABlock`), and
  they stay stranded (`SessionLosses.StrandedForGood`).

`dafny verify dfyconfig.toml` verifies the whole project.

## Model

| member | source | states |
|---|---|---|
| `BundleRuns.AnyOrderDelivers` | internal/torrentclient/bundle/bundle.go:277-347 | For right blocks in any order, repeated or not, mixed with requests, cancellations and reads: the bundle is complete if and only if there is a piece, no piece is empty and every block was delivered at least once; then every bit is set and the concatenated files are the content |
| `BundleRuns.EveryRunKeepsTheBooks` | internal/torrentclient/bundle/bundle.go:277-300 | After every run from Create, with right or wrong blocks and a disk that may fail: a bit is set iff its piece is complete iff the piece has blocks and all are written; a complete piece matches its hash; a complete bundle has only complete pieces |
| `BundleRuns.CompletePiecesAreOnDisk` | internal/torrentclient/bundle/bundle.go:277-347 | While the disk works, the disk range of every complete piece hashes to its metadata hash, and the bundle is complete iff all its pieces are |
| `BundleRuns.CompleteMeansContent` | internal/torrentclient/bundle/bundle.go:277-347 | Whatever bytes arrive: when a bundle is complete its disk differs from the content if and only if some piece on disk and that piece of the content are two strings with one hash |
| `BundleRuns.FailedWriteStaysUnwritten` | internal/torrentclient/bundle/bundle.go:286-347 | When the disk fails after n bytes of the completing write, the piece is complete and its bit set, the error is returned, every later block of it is refused, and the disk is right if and only if it held the other bytes before |
| `BundleRuns.FailingDiskLosesThePiece` | internal/torrentclient/bundle/bundle.go:286-347 | It happens: a one-block torrent and a disk that fails early end with the bit set and other bytes on disk |
| `BundleRuns.BytesLeftIsClose` | internal/torrentclient/bundle/bundle.go:461-463 | With ceil(Length/PieceLength) hashes: bytes missing <= BytesLeft < bytes missing + PieceLength |
| `BundleRuns.ExactlyCoversIsCeil` | internal/torrentclient/bundle/bundle.go:117-127 | The hashes cover the content without an empty piece when there are exactly ceil(Length/PieceLength) of them |
| `BundleReads.ReadsAreNeverStale` | internal/torrentclient/bundle/bundle.go:406-420 | In every run that reads complete pieces only, GetBlock returns the slice of the piece it names, cached or not, and an error exactly when the block overflows the piece |
| `BundleReads.WriteKeepsCoherence` | internal/torrentclient/bundle/bundle.go:277-356 | A write leaves the cache agreeing with the disk if and only if it does not complete a cached piece with bytes other than those on disk |
| `BundleReads.EarlyReadStaysStale` | internal/torrentclient/bundle/bundle.go:406-420 | A one-block piece read before it arrives is read as zeros after it is complete and on disk, whatever operations follow |
| `BundleReads.GetKeepsCoherence` | internal/torrentclient/bundle/bundle.go:349-356 | Reading through the cache keeps it in agreement with the disk |
| `BundleReads.CachedAreTheLastRead` | internal/torrentclient/bundle/bundle.go:349-413 | After every run exactly those pieces are cached that have been read and fewer than 1280 different others since |
| `BundleSpec.CreateInv` | internal/torrentclient/bundle/bundle.go:117-131 | A fresh bundle satisfies the whole invariant: books, bits and disk |
| `BundleSpec.StepKeepsBook` | internal/torrentclient/bundle/bundle.go:277-459 | Every operation, with a failing disk too, keeps pieces consistent and bits equal to the complete pieces |
| `BundleSpec.StepKeepsInv` | internal/torrentclient/bundle/bundle.go:277-459 | While the disk works every operation also keeps each complete piece's bytes on disk and Complete equal to the bitfield's |
| `BundleSpec.PiecesAreDisjoint` | internal/torrentclient/bundle/bundle.go:117-127 | No two pieces share a byte of the disk |
| `BundleSpec.WriteKeepsDisk` | internal/torrentclient/bundle/bundle.go:277-347 | A write leaves every complete piece, and its range on disk, as they were, and puts the bytes of the piece it completes at that piece's place |
| `Bundle.Bundle.constructor` | internal/torrentclient/bundle/bundle.go:49-131 | The loops over files and pieces build the fresh state: files end to end and zero, pieces end to end over the length, an empty bitfield and cache |
| `Bundle.Bundle.WriteBlock` | internal/torrentclient/bundle/bundle.go:277-300 | The new state of pieces, bitfield, files and flags is the specified one, wherever the disk fails; the error is the refusal, or the disk's failure |
| `Bundle.Bundle.CompletePiece` | internal/torrentclient/bundle/bundle.go:286-292 | Sets the bit, recomputes the bitfield's flag from the count, then writes the piece's bytes at its offset, as many as the disk takes |
| `Bundle.Bundle.MarkComplete` | internal/torrentclient/bundle/bundle.go:293-295 | Complete is set once the bitfield is complete, and nothing else changes |
| `Bundle.Bundle.WritePieceToDisk` | internal/torrentclient/bundle/bundle.go:302-347 | The virtual disk changes by exactly the piece's bytes at its offset, in the single-file and the multi-file branch; after an error by those written before it |
| `Bundle.EveryRunIsReadable` | internal/torrentclient/bundle/bundle.go:277-459 | After every run a bundle is sound and its cached pieces are whole, which is what WriteBlock and GetBlock ask for |
| `Bundle.Bundle.GetBlock` | internal/torrentclient/bundle/bundle.go:406-420 | Through the cache, loading on a miss: the result and the new cache are the specified ones, nothing else changes |
| `Bundle.Bundle.ReadCached` | internal/torrentclient/bundle/bundle.go:349-413 | After a miss the piece is gathered from the files and cached; a hit moves it to the front |
| `Bundle.Bundle.CancelBlock` | internal/torrentclient/bundle/bundle.go:422-431 | Clears one fetching mark; ok says whether a block starts at the offset |
| `Bundle.Bundle.NextNBlocks` | internal/torrentclient/bundle/bundle.go:433-459 | For every limit the search returns the specified blocks and marks exactly those: a limit of 0 is none unless the first incomplete piece does not start with an idle block, a negative one is none |
| `Bundle.Bundle.BytesLeft` | internal/torrentclient/bundle/bundle.go:461-463 | Counts the pieces whose bit is not set, times the piece length |
| `Requests.NextBlocksAreTheFirstIdle` | internal/torrentclient/bundle/bundle.go:433-459 | For n >= 1: the first min(n, idle) idle blocks in (piece, offset) order, each named with its true offset and length |
| `Requests.MarkFetchingMarks` | internal/torrentclient/bundle/bundle.go:438-447 | Marking changes fetching marks only: afterwards a block is being fetched iff it was or is among those marked |
| `Requests.NoLimit` | internal/torrentclient/bundle/bundle.go:433-459 | A negative limit hands out every idle block, in order |
| `PieceSpec.BlocksTileThePiece` | internal/torrentclient/bundle/piece.go:18-31 | Blocks are non-empty, at most 16384 bytes, start at multiples of that and cover the piece exactly |
| `PieceSpec.FindBlock` | internal/torrentclient/bundle/piece.go:41-52 | Finds a block exactly at the start of one |
| `PieceSpec.BlocksStartAt` | internal/torrentclient/bundle/piece.go:41-52 | A block is found at the multiples of 16384 inside the piece and at no other offset |
| `PieceSpec.RefusedBecause` | internal/torrentclient/bundle/piece.go:41-52 | Which error is returned: a written block is refused before its length is looked at |
| `PieceSpec.WriteKeepsPieceInv` | internal/torrentclient/bundle/piece.go:40-72 | Any block, right or wrong, keeps the piece consistent: written blocks hold their bytes, complete iff all are written and match the hash |
| `PieceSpec.CompletePieceIsFinal` | internal/torrentclient/bundle/piece.go:53-58 | A complete piece refuses every further block and never changes |
| `PieceSpec.HashFailureFreesEveryBlock` | internal/torrentclient/bundle/piece.go:59-71 | When the last block makes the hash fail, every block of the piece is idle again |
| `PieceSpec.CancelKeepsPieceInv` | internal/torrentclient/bundle/piece.go:103-113 | Cancelling keeps the piece consistent, its bytes and its completeness |
| `PieceSpec.GetBytesIsContent` | internal/torrentclient/bundle/piece.go:95-101 | Blocks that hold the content's slices assemble to the content |
| `PieceSpec.CompletePieceHasAllBytes` | internal/torrentclient/bundle/piece.go:95-101 | A complete piece assembles to exactly its length |
| `Piece.Block.constructor` | internal/torrentclient/bundle/block.go:10-12 | A block of the given length, neither written nor being fetched, without bytes |
| `Piece.Block.Write` | internal/torrentclient/bundle/block.go:14-18 | Stores the bytes, marks the block written and no longer being fetched |
| `Piece.Piece.constructor` | internal/torrentclient/bundle/piece.go:18-31 | The loop cuts the piece into the tiling of PieceSpec |
| `Piece.Piece.FindBlockAt` | internal/torrentclient/bundle/piece.go:41-52 | The running offset stops at the block that starts there, or at the end of the piece when none does |
| `Piece.Piece.WriteBlock` | internal/torrentclient/bundle/piece.go:40-72 | Refusals and their order, storing, the hash check once full, completion or reset: the new state is the specified one |
| `Piece.Piece.Reset` | internal/torrentclient/bundle/piece.go:33-38 | Every block loses its bytes and its written mark; fetching marks stay |
| `Piece.Piece.CheckHash` | internal/torrentclient/bundle/piece.go:74-84 | The hash of the assembled bytes is compared with the piece's |
| `Piece.Piece.CheckFull` | internal/torrentclient/bundle/piece.go:86-93 | True iff every block is written |
| `Piece.Piece.GetBytes` | internal/torrentclient/bundle/piece.go:95-101 | The bytes of the blocks in order |
| `Piece.Piece.CancelBlock` | internal/torrentclient/bundle/piece.go:103-113 | Clears the mark of the block that starts at the offset, if one does |
| `Disk.Scatter` | internal/torrentclient/bundle/bundle.go:316-342 | For any list of file lengths, zero included, the loop changes exactly [offset, offset+length) of the concatenated files, although its early exit compares a relative with an absolute offset |
| `Disk.Gather` | internal/torrentclient/bundle/bundle.go:371-401 | The loop returns exactly [offset, offset+length) of the concatenated files |
| `DiskSpec.SpliceRead` | internal/torrentclient/bundle/bundle.go:316-401 | After a write, the written range reads back what was written and every range apart from it reads as before |
| `CacheSpec.CacheHoldsMostRecentlyUsed` | internal/torrentclient/bundle/piececache.go:16-45 | After any Puts and Gets: a key is cached iff fewer than capacity other keys were used since its last use; its rank is their number and its value the last one put |
| `PieceCaches.PieceCache.Put` | internal/torrentclient/bundle/piececache.go:25-38 | List and map, with their back-pointers, hold the entries of the specified cache after the insertion or update |
| `PieceCaches.PieceCache.Get` | internal/torrentclient/bundle/piececache.go:40-45 | A hit returns the value and moves its element to the front; a miss changes nothing |
| `PieceCaches.PieceCache.Contains` | internal/torrentclient/bundle/piececache.go:20-23 | True iff the key is cached |
| `PieceCaches.PieceCache.RemoveBack` | internal/torrentclient/bundle/piececache.go:28-33 | Evicts exactly the least recently used entry, from list and map |
| `BitfieldSpec.CountIsSize` | internal/torrentclient/bitfield/bitfield.go:17-34 | The sum of the bits on per byte is the size of the set of indices on |
| `BitfieldSpec.HighBitFirst` | internal/torrentclient/bitfield/bitfield.go:91-109 | Index 0 is the bit of value 128, and each next index the next lower bit |
| `Bitfields.Compare` | internal/torrentclient/bitfield/bitfield.go:132-182 | For two bitfields of one length: NumDiff and the count of And add up to NumSet on either side, and HasAll holds iff the NumDiff the other way is 0 |
| `BitfieldSpec.RelevantAtMostWanted` | internal/torrentclient/peer/peer.go:475-479 | With spare bits zero the pieces a peer has beyond ours are at most those wanted, and none iff we have all of them |
| `Bitfields.CountOnes` | internal/torrentclient/bitfield/bitfield.go:19-29 | The loop b &= b-1 counts the bits on |
| `Bitfields.Bitfield.FromBytes` | internal/torrentclient/bitfield/bitfield.go:17-34 | NumSet is the number of indices on; Empty and Complete follow it |
| `Bitfields.Bitfield.constructor` | internal/torrentclient/bitfield/bitfield.go:60-68 | No index is on and there are enough bytes |
| `Bitfields.Bitfield.SetBit` | internal/torrentclient/bitfield/bitfield.go:91-103 | Adds the index, keeps NumSet the true count, recomputes Complete, never clears Empty, and accepts an index equal to the length; indexes out of range exactly when that bit has no byte, which in a bitfield from New is an index equal to a length divisible by 8 |
| `Bitfields.Bitfield.GetBit` | internal/torrentclient/bitfield/bitfield.go:105-109 | Membership in the set of indices on; out of range exactly beyond the last byte |
| `Bitfields.Bitfield.And` | internal/torrentclient/bitfield/bitfield.go:132-140 | For equal lengths the intersection, with its count; out of range exactly when either has too few bytes for the shorter length |
| `Bitfields.Bitfield.Equals` | internal/torrentclient/bitfield/bitfield.go:142-152 | True iff the lengths agree and the other's bytes begin with ours; out of range iff the lengths agree and the other's bytes run out before a difference |
| `Bitfields.Bitfield.HasAll` | internal/torrentclient/bitfield/bitfield.go:154-170 | True iff the lengths agree and every index on in the other, among the bytes we have, is on here; out of range iff the lengths agree, the other has fewer bytes and is a subset |
| `Bitfields.Bitfield.NumDiff` | internal/torrentclient/bitfield/bitfield.go:172-182 | The number of indices on here and not in the other; out of range exactly when the other has fewer bytes |
| `BencodeRoundTrip.ParseUndoesEncode` | internal/torrentclient/bencode/bencode.go:277-356 | Parse(BEncode(d)) = d for every dictionary of byte strings, 64-bit integers, lists and dictionaries, whatever bytes the strings contain |
| `BencodeRoundTrip.EncodeIsInjective` | internal/torrentclient/bencode/bencode.go:323-356 | Different dictionaries have different encodings |
| `BencodeParts.AcceptedExactlyWhen` | internal/torrentclient/bencode/bencode.go:277-287 | Any input is accepted if and only if its tokens are one dictionary whose parts are keys that are strings, each with a value, and at most one key without one at the end; then it is those entries, of equal keys the last. It panics exactly when the tokenizer does or finds nothing, and is an error otherwise |
| `BencodeParts.DictIsParsed` | internal/torrentclient/bencode/bencode.go:208-275 | For any parts between the brackets, whole containers among them: the dictionary has exactly these entries, or is refused because a key is no string or a value is refused |
| `BencodeParts.ListIsParsed` | internal/torrentclient/bencode/bencode.go:144-206 | For any parts: the list has the value of each in order, or is refused because one of them is |
| `BencodeParts.ContainerIsRow` | internal/torrentclient/bencode/bencode.go:27-74 | Every container that closes with its last token is a row of such parts between its brackets |
| `BencodeParts.TokensReadBack` | internal/torrentclient/bencode/bencode.go:27-74 | Any tokens that nest are read back from their text, whatever an integer has between i and e |
| `BencodeNesting.AcceptedIsOneDictionary` | internal/torrentclient/bencode/bencode.go:208-275 | Of nested tokens the parser accepts only a dictionary opened by the first and closed by the last: one that is left open, or that ends earlier, is refused |
| `BencodeInputs.AcceptedNests` | internal/torrentclient/bencode/bencode.go:277-287 | So the tokens of every accepted input are one dictionary that closes with the last of them |
| `BencodeInputs.FirstByteDecides` | internal/torrentclient/bencode/bencode.go:51-58 | Behind any leading e: no byte panics, a byte that starts no token is an error, and only d can lead to a dictionary |
| `BencodeInputs.OnlyDictionariesParse` | internal/torrentclient/bencode/bencode.go:208-212 | The encoding of any value that is no dictionary is an error |
| `BencodeInputs.EntriesParse` | internal/torrentclient/bencode/bencode.go:213-275 | Entries in any order, with keys repeated and stray ends behind the dictionary: the last of equal keys wins |
| `BencodeInputs.LastWinsMeans` | internal/torrentclient/bencode/bencode.go:213-275 | Every key that occurs has the value that stands with it last, and no other key is there |
| `BencodeInputs.OrderDoesNotMatter` | internal/torrentclient/bencode/bencode.go:213-275 | Without equal keys the entries in any order are the same dictionary |
| `BencodeInputs.KeyWithoutValue` | internal/torrentclient/bencode/bencode.go:214-221 | A key with nothing behind it is dropped |
| `BencodeInputs.KeyMustBeString` | internal/torrentclient/bencode/bencode.go:215-217 | An integer, list or dictionary in the place of a key is an error |
| `BencodeInputs.UnclosedIsError` | internal/torrentclient/bencode/bencode.go:210-212 | A dictionary that is not closed is an error, after however many entries |
| `BencodeInputs.JunkIsError` | internal/torrentclient/bencode/bencode.go:56-58 | A byte that starts no token is an error, after however many entries |
| `BencodeInputs.EndlessNumberPanics` | internal/torrentclient/bencode/bencode.go:38-43 | An integer without its end makes the tokenizer index out of range |
| `BencodeInputs.ShortStringPanics` | internal/torrentclient/bencode/bencode.go:65-68 | So does a string shorter than its length says |
| `BencodeInputs.IntegerTexts` | internal/torrentclient/bencode/bencode.go:136-142 | The text of an integer is accepted exactly if it is that of a 64-bit number, which is the value |
| `BencodeInputs.WrappedLengthIsEmpty` | internal/torrentclient/bencode/bencode.go:59-68 | A length that wraps round to zero or below stands for the empty string |
| `BencodeText.ParseIntAccepts` | internal/torrentclient/bencode/bencode.go:136-142 | Numbers are read from a sign or none, any number of zeros and the shortest digits, if they are in range, and from nothing else |
| `BencodeText.LengthWrapsOnce` | internal/torrentclient/bencode/bencode.go:59-64 | The length computed digit by digit in 64 bits is the decimal number, wrapped round once |
| `BencodeText.LessIsByteOrder` | internal/torrentclient/bencode/bencode.go:325-329 | The order of keys: a proper prefix first, else the smaller byte where they first differ |
| `BencodeText.IntTextIsCanonical` | internal/torrentclient/bencode/bencode.go:289-291 | An integer is written with a minus exactly if it is negative, and with a leading zero only if it is zero |
| `BencodeFormat.EncodedForm` | internal/torrentclient/bencode/bencode.go:289-321 | A string stands behind its length and a colon, an integer between i and e, the items of a list between l and e |
| `BencodeFormat.DictionaryForm` | internal/torrentclient/bencode/bencode.go:323-356 | A dictionary is d, then its entries, each key once and in byte order, then e |
| `BencodeFormat.AnnounceComesFirst` | internal/torrentclient/bencode/bencode.go:323-356 | The text for the keys announce and announce-list, character by character |
| `BencodeRoundTrip.LexEncoded` | internal/torrentclient/bencode/bencode.go:27-74 | In front of any further input, the tokenizer turns an encoded value into exactly the tokens of that value and goes on behind it |
| `BencodeRoundTrip.LexNests` | internal/torrentclient/bencode/bencode.go:32-53 | The tokens of any input that is accepted nest: every end matches the innermost open container |
| `BencodeRoundTrip.MatchEndIsTheEnd` | internal/torrentclient/bencode/bencode.go:164-201 | On nested tokens the loop that counts one kind of bracket stops at the true end of the container |
| `BencodeSpec.SortedOnce` | internal/torrentclient/bencode/bencode.go:325-329 | A set of keys has one sorted listing, so the encoding does not depend on the order of map iteration |
| `BencodeSpec.InsertKeepsSorted` | internal/torrentclient/bencode/bencode.go:325-329 | A key put in its slot leaves the listing sorted and adds just that key |
| `BencodeSpec.IntTextRoundTrip` | internal/torrentclient/bencode/bencode.go:136-142 | Every integer in range parses back from its decimal text |
| `Bencode.Tokenize` | internal/torrentclient/bencode/bencode.go:27-74 | Computes the specified tokens, error or out-of-range panic of any input; the stack is what the tokens leave open |
| `Bencode.ReadLength` | internal/torrentclient/bencode/bencode.go:58-63 | The length before a colon in wrapping 64-bit arithmetic |
| `Bencode.SkipContainer` | internal/torrentclient/bencode/bencode.go:164-201 | The inner loop counts one kind of bracket and stops where specified |
| `Bencode.ParseList` | internal/torrentclient/bencode/bencode.go:144-206 | The index loop with recursive calls on strictly shorter slices gives the specified list or error; stray ends are skipped |
| `Bencode.ParseDict` | internal/torrentclient/bencode/bencode.go:208-275 | Likewise for dictionaries: later keys win, a key without a value is dropped, a key that is no string is an error |
| `Bencode.Parse` | internal/torrentclient/bencode/bencode.go:277-287 | The result is the one BencodeParts.AcceptedExactlyWhen describes for any input: tokens, then the dictionary; no tokens at all panics |
| `Bencode.BEncodeList` | internal/torrentclient/bencode/bencode.go:297-321 | The loop appends the encodings of the items |
| `Bencode.SortKeys` | internal/torrentclient/bencode/bencode.go:325-329 | The keys of the map, each once, in the byte order of BencodeText.LessIsByteOrder, whatever order they come in |
| `Bencode.BEncode` | internal/torrentclient/bencode/bencode.go:323-356 | The loop over the sorted keys gives the encoding of the dictionary, in the form BencodeFormat.DictionaryForm describes |
| `InfoHashSpec.InfoRangeIsInfo` | internal/torrentclient/bencode/bencode.go:358-407 | On the encoding of any dictionary with an info dictionary: the hashed bytes are exactly the encoded info dictionary if and only if it stands at the first 4:infod, as it does when that is the real key, and no string inside it is 2 GiB or longer |
| `InfoHashSpec.InfoRangeIsThePlace` | internal/torrentclient/bencode/bencode.go:358-407 | The hashed range is the place of the info dictionary if and only if the first 4:infod is the real key and no string inside is 2 GiB or longer |
| `InfoHashSpec.ScanEncoded` | internal/torrentclient/bencode/bencode.go:371-401 | The counter skips an encoded value exactly when its strings are short enough, and fails on the length otherwise |
| `InfoHashSpec.NeedleInAString` | internal/torrentclient/bencode/bencode.go:358-407 | With the string value 4:infode in front of it, de is hashed instead of the info dictionary, for every info dictionary but the empty one |
| `InfoHashInputs.TooShortPanics` | internal/torrentclient/bencode/bencode.go:362 | A file of fewer than 7 bytes makes it slice out of range |
| `InfoHashInputs.WithoutKeyTheLastByteIsHashed` | internal/torrentclient/bencode/bencode.go:358-369 | A file in which 4:infod does not occur is not refused: its last byte is hashed |
| `InfoHashInputs.ClosingByteEnds` | internal/torrentclient/bencode/bencode.go:371-402 | Behind the key and any whole values the first end that closes the info dictionary ends the hashed range, whatever follows |
| `InfoHashInputs.UnclosedIsHashedToTheEnd` | internal/torrentclient/bencode/bencode.go:371-402 | A file that stops behind an opening bracket is hashed to its end |
| `InfoHashInputs.JunkIsNeverPassed` | internal/torrentclient/bencode/bencode.go:371-401 | On a byte that starts nothing the loop never ends, at any depth and after any values |
| `InfoHashInputs.NumberWithoutColon` | internal/torrentclient/bencode/bencode.go:371-401 | Nor on a number that no colon follows |
| `InfoHashInputs.NumberRunsOut` | internal/torrentclient/bencode/bencode.go:372-376 | A number at the end of the file makes the scanner index out of range |
| `InfoHashInputs.IntegerRunsOut` | internal/torrentclient/bencode/bencode.go:386-390 | So does an integer without its end |
| `InfoHashInputs.StringRunsOut` | internal/torrentclient/bencode/bencode.go:377-385 | And a string that reaches the end of the file, but a length of more than 32 bits is an error that is returned |
| `Bencode.ScanInfo` | internal/torrentclient/bencode/bencode.go:371-401 | The counting loop ends where specified, or with the error, the out-of-range index or the round that repeats for ever |
| `Bencode.GetInfoHash` | internal/torrentclient/bencode/bencode.go:358-407 | The hash of exactly the specified range, which lies within the input |
| `MessageSpec.FramesReadBack` | internal/torrentclient/peer/message/message.go:44-208 | For any list of messages the constructors build and any bytes behind them: repeated reading gives back the list and leaves those bytes if and only if each is neither PORT nor HANDSHAKE and has a body of at most 17 KiB |
| `MessageSpec.FrameReadsBack` | internal/torrentclient/peer/message/message.go:44-208 | The same for one message, and otherwise what is read is another message, an error or a panic |
| `MessageSpec.OversizedIsLost` | internal/torrentclient/peer/message/message.go:65-71 | A longer bit field or piece is never read back, also where its 32-bit length wraps round |
| `MessageSpec.PortPanics` | internal/torrentclient/peer/message/message.go:112-117 | Every PORT frame makes the parser index out of range |
| `MessageSpec.EveryBlockFits` | internal/torrentclient/peer/message/message.go:285-287 | A piece message for any block of at most 16 KiB is read back |
| `MessageSpec.RequestNamesTheBlock` | internal/torrentclient/peer/message/message.go:281-291 | A request or cancellation for any block arrives, and names that block at the other end iff piece, offset and length fit 32 bits |
| `MessageSpec.HandshakeReadsBack` | internal/torrentclient/peer/message/message.go:118-159 | A handshake parses back, with eight zero bytes reserved, iff hash and ID have 20 bytes each |
| `WireFormat.EncodedIsFrame` | internal/torrentclient/peer/message/message.go:44-132 | The bytes of every message: its length, its number, and each field as a big-endian value at its place; the five messages without fields, and a handshake, byte by byte |
| `WireFormat.ParseMessageIsRead` | internal/torrentclient/peer/message/message.go:161-208 | What any bytes are read as, by the first of them: the fields from their places, a panic if they are too short, an error for every number above 9 and every body over 17408 bytes |
| `WireFormat.FrameIsRead` | internal/torrentclient/peer/peer.go:858-908 | A frame is as long as its first four bytes say, big-endian; one over 17408 bytes leaves its body in the stream, one that is cut off uses up the rest |
| `WireFormat.HandshakeAcceptedExactlyWhen` | internal/torrentclient/peer/peer.go:613-639 | For any portions: accepted if and only if the first has at least 68 bytes, they begin with 19 and the name of the protocol, and bytes 28 to 48 are the torrent's hash; the ID is bytes 48 to 68 |
| `Wire.PutUint32` | internal/torrentclient/peer/message/message.go:57-58 | Fills the buffer with the big-endian word |
| `Wire.GetBytes` | internal/torrentclient/peer/message/message.go:44-132 | Buffers and appends give for every message the frame of WireFormat.EncodedIsFrame, with lengths in 32-bit arithmetic |
| `Wire.Conn.ReadFull` | internal/torrentclient/peer/peer.go:868-880 | The loop of partial reads takes exactly n bytes off the stream, or fails having used it up |
| `Wire.Conn.ReadMessage` | internal/torrentclient/peer/peer.go:858-908 | Result and bytes left depend on the bytes of the stream only, not on how they arrive, and are those of WireFormat.FrameIsRead |
| `Wire.Conn.ReadMessages` | internal/torrentclient/peer/peer.go:567-588 | The inner loop reads one message after another and goes on after an error |
| `Wire.Conn.ReadHandshake` | internal/torrentclient/peer/peer.go:613-639 | One read of 68 bytes, parsed, with the hash compared: accepted as WireFormat.HandshakeAcceptedExactlyWhen says |
| `Wire.HandshakeNeedsOneRead` | internal/torrentclient/peer/peer.go:613-639 | A peer's handshake is accepted if and only if all its bytes arrive with the first read |
| `PeerSpec.AnswerNamesTheBlock` | internal/torrentclient/peer/peer.go:30-34 | A response that matches a request in 32 bits names the same block iff piece and offset fit 32 bits |
| `PeerSpec.HandlePieceHolds` | internal/torrentclient/peer/peer.go:709-733 | Handling a piece moves the request it answers; how often the peer holds each block stays the same |
| `PeerSpec.HandlePieceMoves` | internal/torrentclient/peer/peer.go:709-733 | The block leaves the requests and joins the responses exactly when a request for it stands in the queue; a response to none is dropped |
| `PeerSpec.OnlyTheLateExpire` | internal/torrentclient/peer/peer.go:546-560 | Exactly the requests that were sent and are late are given up |
| `PeerSpec.ExpireHolds` | internal/torrentclient/peer/peer.go:546-560 | How often the peer holds each block also stays the same when it gives up requests after a timeout |
| `PeerSpec.GiveUpHolds` | internal/torrentclient/peer/peer.go:488-491 | And when it gives up all of them |
| `PeerSpec.QueueRequestHolds` | internal/torrentclient/peer/peer.go:321-341 | Queueing adds exactly the one request |
| `PeerSpec.QueueRequestSucceeds` | internal/torrentclient/peer/peer.go:321-341 | It succeeds when there is room and the peer does not hold the block |
| `Peer.Peer.constructor` | internal/torrentclient/peer/peer.go:174-257 | A connected peer: choking, room for 10 requests, empty queues |
| `Peer.Peer.QueueRequestOut` | internal/torrentclient/peer/peer.go:321-341 | Refuses at capacity or on a duplicate, else appends |
| `Peer.Peer.NumRequestsCanAdd` | internal/torrentclient/peer/peer.go:307-312 | The room left in the request queue |
| `Peer.Peer.HandlePieceMessage` | internal/torrentclient/peer/peer.go:709-733 | The first request that matches leaves the queue and the response is queued; otherwise nothing changes |
| `Peer.Peer.SendRequests` | internal/torrentclient/peer/peer.go:511-527 | Every request is marked sent and nothing else changes |
| `Peer.Peer.ExpireRequests` | internal/torrentclient/peer/peer.go:546-560 | The loop with removal moves exactly the sent requests that are late, in order |
| `Peer.Peer.GetResponsesIn` | internal/torrentclient/peer/peer.go:398-409 | Hands over the responses and empties their queue |
| `Peer.Peer.GetCancelledRequests` | internal/torrentclient/peer/peer.go:411-423 | Hands over the cancelled requests and empties their queue |
| `Peer.Peer.GiveUpRequests` | internal/torrentclient/peer/peer.go:488-491 | Every request is moved to the cancelled ones |
| `Peer.Peer.Close` | internal/torrentclient/peer/peer.go:259-284 | All queues are emptied and the peer is no longer connected |
| `Peer.GetRelevance` | internal/torrentclient/peer/peer.go:475-479 | The fraction of wanted pieces the peer has; with spare bits zero its numerator is between 0 and the denominator, and 0 iff the peer has nothing wanted; out of range exactly when the peer's bitfield has more bytes than ours |
| `QueueSpec.AssignHandsOut` | internal/torrentclient/session/session.go:464-523 | One peer's turn: every request handed out is accepted by the peer's queue, is marked sent to it and held by it, what was sent before stays sent, and the queue lists the same blocks |
| `QueueSpec.FirstWantedAreHandedOut` | internal/torrentclient/session/session.go:491-514 | The first requests in the queue that are unsent, not rejected by the peer and of a piece it has are handed out, as many as it may take, in order; every other entry stays as it is |
| `QueueSpec.Removed` | internal/torrentclient/session/session.go:421-428 | Removing a block takes just that one off the list |
| `QueueSpec.Rejected` | internal/torrentclient/session/session.go:444-457 | A block given back is still listed, sent to nobody and marked as rejected by that peer; all others stay |
| `QueueSpec.Unsent` | internal/torrentclient/session/session.go:632-637 | Exactly the blocks sent to the peer are unsent |
| `QueueSpec.Extended` | internal/torrentclient/session/session.go:346-359 | New blocks are listed, unsent, beside the old ones |
| `AddressSpec.LearnAdds` | internal/torrentclient/session/session.go:304-340 | Exactly the addresses that no list had are added, once each |
| `AddressSpec.MovesKeep` | internal/torrentclient/session/session.go:538-648 | Connecting, failing, succeeding and disconnecting move addresses between the lists; each occurs as often as before |
| `AddressSpec.MovesWhere` | internal/torrentclient/session/session.go:554-648 | Which list an address leaves and which it joins, and that it moves only if it is there |
| `AddressSpec.ReapedKeeps` | internal/torrentclient/session/session.go:215-237 | Reaping adds no address |
| `SessionRuns.EveryRun` | internal/torrentclient/session/session.go:149-651 | The invariant of a session holds after every run, in any interleaving of the session's sections with what happens inside peers, when peers that join have IDs of their own |
| `SessionRuns.StepKeeps` | internal/torrentclient/session/session.go:149-651 | Every single step keeps it |
| `SessionRuns.EveryRunHasSingleHolders` | internal/torrentclient/session/session.go:402-651 | A block stands at most once in the request, response and cancelled queues of all peers together, and then the block queue says it was sent to just that peer |
| `SessionRuns.QueueIsWhatIsFetched` | internal/torrentclient/session/session.go:342-433 | The block queue lists each block the bundle marks as being fetched once and nothing else, and never exceeds 256, also after hash failures, write errors and Stop |
| `SessionRuns.ResponsesAreAccepted` | internal/torrentclient/session/session.go:402-433 | No response that waits at a peer is refused as unknown, already written or of the wrong length |
| `SessionRuns.AssignmentsSucceed` | internal/torrentclient/session/session.go:464-523 | Every request that assignParts hands to a peer, whose error it ignores, is accepted; no request queue exceeds its maximum, and no maximum 320 |
| `SessionRuns.AddressesStayDistinct` | internal/torrentclient/session/session.go:304-651 | Each address is at most once in the three lists together |
| `SessionRuns.FreshSessionIsInitial` | internal/torrentclient/session/session.go:84-130 | A session on a fresh bundle is a starting state, if pieces and offsets fit 32 bits |
| `SessionRuns.StopKeeps` | internal/torrentclient/session/session.go:149-167 | After Stop nothing is being fetched |
| `SessionRuns.CollectedIsUnlisted` | internal/torrentclient/session/session.go:402-433 | After a peer's turn its responses are gone and the queue lists exactly the blocks it did not answer |
| `SessionRuns.TakenBackIsUnsent` | internal/torrentclient/session/session.go:435-462 | After a peer's turn what it gave up is still listed and sent to nobody; everything else is sent as before |
| `SessionRuns.DropRemovesOne` | internal/torrentclient/session/session.go:612-651 | Disconnecting removes the peer with the ID and no other |
| `SessionRuns.CollectOneKeeps` | internal/torrentclient/session/session.go:402-433 | Taking one response keeps the invariant, whatever the hash check and the disk do |
| `SessionRuns.PeerEventKeeps` | internal/torrentclient/peer/peer.go:481-765 | So does anything that happens inside a peer |
| `SessionSteps.DisconnectMovesTheAddress` | internal/torrentclient/session/session.go:612-651 | Disconnecting a peer takes its address once from the connected ones and adds it at the end of the unconnected ones; every other address stays, and the connecting ones do not change |
| `SessionSteps.DisconnectOfNobody` | internal/torrentclient/session/session.go:612-651 | Without a peer of that ID nothing changes |
| `SessionSteps.DisconnectUnsends` | internal/torrentclient/session/session.go:612-651 | The blocks sent to that ID are sent to nobody; rejections, all other entries and the bundle stay |
| `SessionSteps.AttemptsMoveAddresses` | internal/torrentclient/session/session.go:538-577 | Starting to connect moves the first unconnected address, failure and success move the address back or on, each to the end of its list and only from the list of those connecting |
| `SessionSteps.LearnedAreUnconnected` | internal/torrentclient/session/session.go:304-340 | Addresses no list has join the end of the unconnected ones, once each, in the order in which they first occur |
| `SessionSteps.ReapTakesTheClosed` | internal/torrentclient/session/session.go:215-237 | A connected address goes, with the first peer at it, exactly if that peer has closed, and nothing else changes |
| `SessionSteps.ReapOfNobody` | internal/torrentclient/session/session.go:215-237 | An address without a peer stays |
| `SessionSteps.StopEmptiesEverything` | internal/torrentclient/session/session.go:149-167 | After Stop the queue, the peers and the three address lists are empty and nothing is being fetched |
| `SessionSteps.RefillTakesAsManyAsFit` | internal/torrentclient/session/session.go:342-360 | After a refill the queue has min(256, old length + number of idle blocks) entries |
| `SessionSteps.TurnHandsOut` | internal/torrentclient/session/session.go:464-523 | One turn hands out none to a choking peer, else min(room, rate cap, blocks it wants), the first of them, wanted being unsent, not rejected by it and of a piece it has; its maximum doubles exactly if it gave up less than a quarter, may be given more than half, and is below 256; nothing else changes |
| `SessionSteps.PeerEventIs` | internal/torrentclient/peer/peer.go:481-765 | What any event inside a peer does to its queues and flags, and that it changes that peer only: a piece answers the first request that matches it in 32 bits, exactly the late requests that were sent are given up, in whole numbers |
| `SessionSteps.QueueingRefused` | internal/torrentclient/peer/peer.go:321-341 | A request is refused exactly if the queue is full or has it; otherwise it is appended, unsent |
| `SessionSteps.JoinAppends` | internal/torrentclient/session/session.go:584-610 | A peer that joins is the last: connected, choking, without pieces or requests, and may have ten of them |
| `SessionSteps.OthersAreLeftAlone` | internal/torrentclient/session/session.go:402-462 | Collecting from a peer and taking back from it change no other peer and no address; taking back changes no piece |
| `SessionFetching.ReceiveStops` | internal/torrentclient/session/session.go:410-419 | A response to a block that is being fetched is not refused; that block, and only that, stops being fetched |
| `SessionFetching.NextFetches` | internal/torrentclient/session/session.go:346-359 | The blocks taken from the bundle were not being fetched, are as many as asked for at most, and now are |
| `SessionFetching.CancelQueuedStops` | internal/torrentclient/session/session.go:155-157 | Cancelling the queue stops exactly the blocks it lists |
| `SessionLosses.StrandedExactlyWhen` | internal/torrentclient/session/session.go:215-237 | If every block is held by the peer it was sent to, a step keeps it so if and only if no peer with something in its queues closes by itself or is reaped |
| `SessionLosses.SentExactlyWhileHeld` | internal/torrentclient/session/session.go:402-651 | In a run without such a loss a block is marked as sent to a peer exactly while it stands in that peer's queues |
| `SessionLosses.StrandedUntilFreed` | internal/torrentclient/session/session.go:149-651 | A stranded block stays stranded in the next step if and only if that is neither Stop nor the disconnection of a listed peer with the ID it was sent to |
| `SessionLosses.StrandedForGood` | internal/torrentclient/session/session.go:149-651 | So over every run without such a step it goes on being fetched, is in no peer's queues and no peer's turn hands it out |
| `SessionLosses.ClosingStrandsABlock` | internal/torrentclient/peer/peer.go:488-493 | It happens: in any session with a block to fetch, a peer that is handed requests and closes leaves the block marked as sent and held by nobody |
| `SessionLosses.DropKeepsHoldersExactlyWhen` | internal/torrentclient/session/session.go:612-651 | Without distinct IDs: if what each peer holds was sent to its ID, disconnecting an ID keeps it so if and only if no peer with that ID but the last has anything queued |
| `SessionLosses.SharedIdLosesTheHolder` | internal/torrentclient/session/session.go:612-637 | Otherwise what the first of them holds is sent to nobody any more |
| `SessionLosses.BlockAtTwoPeers` | internal/torrentclient/session/session.go:584-637 | It happens: in any session with a block to fetch, two peers that join with one ID, a disconnection and a third peer end with the block at two peers |
| `SessionLosses.FreshSessionHasBlocks` | internal/torrentclient/session/session.go:342-360 | A session on a fresh torrent whose first piece is not empty has a block to fetch |
| `SessionRejections.RejectedIsNeverHandedAgain` | internal/torrentclient/session/session.go:464-523 | In every run a block a peer has rejected is never sent to that peer again while it is listed: the reset of rejections is never reached |
| `SessionRejections.RejectedByAllStaysUnsent` | internal/torrentclient/session/session.go:464-523 | In every run in which nobody joins, a block every peer has rejected is sent to nobody, and stays rejected by all until Stop |
| `SessionSending.SendableExactlyWhen` | internal/torrentclient/session/session.go:435-523 | A listed block that is sent to nobody can be sent in some run in which nobody joins if and only if some peer in the session's list has not rejected it |
| `SessionSending.OnePeerRejects` | internal/torrentclient/session/session.go:435-523 | It happens: in any session with a block to fetch, one peer that is handed requests and gives them up leaves a listed block that no run without a new peer can send |
| `SessionRejections.TakenBackIsRefused` | internal/torrentclient/session/session.go:435-462 | After a peer's turn everything it gave up is rejected by it |
| `SessionBundle.SessionRunIsABundleRun` | internal/torrentclient/session/session.go:149-651 | The bundle of every session run is the bundle of a run of its own, which writes the responses the session collects, every one for a piece it has and no others, and whose disk holds if the session's does; what is collected answered a request |
| `SessionBundle.SessionKeepsTheBooks` | internal/torrentclient/session/session.go:402-433 | After every session run bits, complete pieces and hashes agree, whatever arrives and however the disk fails |
| `SessionBundle.SessionDownloadsTheContent` | internal/torrentclient/session/session.go:402-433 | Whatever the peers of a session send and however its steps interleave: once its bundle is complete, the disk differs from the content if and only if a piece of one and of the other are two strings with one hash |
| `SessionBundle.SessionDelivers` | internal/torrentclient/session/session.go:402-433 | If what the session collects is right, whatever else arrives, and the disk works: the bundle is complete if and only if every block has been collected from some peer; then the disk is the content |
| `Session.Session.constructor` | internal/torrentclient/session/session.go:84-130 | A session around a bundle, with empty queue and lists |
| `Session.Session.GetBlocksFromBundle` | internal/torrentclient/session/session.go:342-360 | Fills the queue up to its maximum with the bundle's next blocks |
| `Session.ServePeer` | internal/torrentclient/session/session.go:475-494 | One peer's turn as specified: room, rate cap, doubling of the maximum, handing out |
| `Session.HandOut` | internal/torrentclient/session/session.go:491-514 | The inner loop hands out as specified |
| `Session.Session.AssignParts` | internal/torrentclient/session/session.go:464-523 | The loop is the run of one assignment step for each peer |
| `Session.WriteResponses` | internal/torrentclient/session/session.go:409-430 | The inner loop: each response is written, or cancelled on an error, and its block removed from the queue |
| `Session.EveryRunIsAnswerable` | internal/torrentclient/session/session.go:149-433 | After every run responses and block queue name pieces of the bundle, which is what checkResponses and Stop need not to index out of range |
| `Session.Session.CheckResponses` | internal/torrentclient/session/session.go:402-433 | The loop is the run of one collecting step for each peer, and keeps the invariant |
| `Session.TakeBackRequests` | internal/torrentclient/session/session.go:444-457 | The inner loop gives every cancelled request back to the queue |
| `Session.Session.CheckCancelled` | internal/torrentclient/session/session.go:435-462 | The loop is the run of one such step for each peer |
| `Session.Session.DisconnectPeer` | internal/torrentclient/session/session.go:612-651 | The last peer with the ID is closed and removed, its blocks are unsent and its address can be tried again, as in SessionSteps.DisconnectMovesTheAddress; without one nothing changes |
| `Session.Session.ReapDeadPeers` | internal/torrentclient/session/session.go:215-237 | The nested loops with removal give the specified peers and addresses |
| `Session.OnePassReapsAll` | internal/torrentclient/session/session.go:215-237 | After one pass no connected address belongs to a peer that has closed |
| `Session.ReapingKeepsTheConnected` | internal/torrentclient/session/session.go:215-237 | The pass takes away closed peers only |
| `Session.ReapAllKeeps` | internal/torrentclient/session/session.go:215-237 | The whole pass of reaping keeps the invariant |
| `Session.Session.Stop` | internal/torrentclient/session/session.go:149-167 | Every queued block is cancelled, every peer closed, every list emptied |
| `Session.Session.UpdatePeerInfo` | internal/torrentclient/session/session.go:304-340 | The loop adds exactly the addresses no list has |
| `Session.Session.StartConnectingNext` | internal/torrentclient/session/session.go:543-551 | The first unconnected address becomes a connecting one |
| `Session.Session.ConnectionFailed` | internal/torrentclient/session/session.go:554-564 | It goes back to the unconnected ones, if it is still connecting |
| `Session.Session.ConnectionSucceeded` | internal/torrentclient/session/session.go:567-577 | It becomes a connected one, if it is still connecting |
| `Session.Session.AddConnection` | internal/torrentclient/session/session.go:606-608 | The new peer is appended |

## Left out

- Real files: directories, opening, short files, `writeFiles`, `DeleteFiles`; each file is an array of its declared length, and a failing write leaves the first bytes of the piece, as many as it likes.
- Bundle.Bundle.GetBlock: reads bundles of several files only, because the single-file branch of `readPiece` reads into a buffer of length zero.
- Bundle.Bundle.LoadPiece: the same.
- Bundle.Bundle.ReadCached: the same.
- `Load` and `Recheck`: a loaded bitfield sets bits without completing pieces, so bits and pieces need not agree; session runs may start from any bundle in which nothing is being fetched.
- `ResetBit`, `ResetAll`, `FirstOff`, `FromHex` and `Clone` of the bitfield.
- PieceCaches.PieceCache.constructor: asks for a capacity of at least one, as the bundle gives it; the doubly linked list is a sequence of elements, and a map node is a value.
- Bencode.BEncode: values are the four kinds the parser produces; the error for other Go types cannot arise.
- `torrentfile.go` and `metafile.go`, field extraction on top of bencoding.
- SessionSpec.Receive: an index beyond the pieces, where the program would panic, changes nothing; `SessionRuns.ResponsesAreAccepted` shows it does not arise.
- Session.Session.Stop: closes the peers itself; the program starts a goroutine for each.
- `Peer.remotePieces` is a set, so the steps of a session leave out the panics of `RemoteBitfield`; bitfields as bytes, with those panics, are modelled in `Bitfields`, and `Peer.GetRelevance` has the peer's as an argument.
- A peer that has closed takes part in a session's runs like any other until it is reaped; in the program nothing arrives from it any more.
- `AssignParts` leaves out the reset of rejections under `peerIndex == len(session.Peers)`, which is never true; sorting the peers is modelled as swaps (`SessionSpec.Swap`).
- The upload path (`QueueResponseOut`, `sendPiece`, `checkRequests`, REQUEST and CANCEL), choking messages to peers, `CancelRequest`, `Have`.
- Incoming peers (`Add`, `AddPeer`), whose ID stays nil, and banned peers; an attempt to connect may fail for any reason.
- Data races on fields read without a lock; every locked section and every peer's turn is one step.
- Wire.Conn.ReadMessages: leaves out the end of the loop on a read timeout; the read deadline is cleared when the connection is set up.
- Rates, clocks and floating point; relevance is an exact fraction.
- Liveness: that peers answer and the network delivers; which blocks are never asked for again is proved (`SessionLosses.StrandedForGood`, `SessionSending.SendableExactlyWhen`).
- Trackers, the listening server, the HTTP API, the database and the command line.
