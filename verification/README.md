# A verified model of p2p_file_transfer

The program moves a file between peers in chunks. A package lists the SHA-256 hash of every chunk and of
every internal node of a binary tree over them; a peer verifies a chunk against that tree before it
serves it, cuts it into RES packets, and the receiver writes each packet where it belongs. The model
covers the three algorithms this rests on and the protocol that combines them.

- `Bytes`, `Digests`: bytes, little- and big-endian integers, `memcpy`, hash strings.
- `Fips180`, `Sha256`: SHA-256 as FIPS 180-4 defines it for whole messages, and the streaming,
  in-place implementation, proved to give the same digest.
- `ShaFacts`, `ShaExample`: what pins that definition down: laws of its logical functions, its constants as
  roots of primes, and the example of one block worked out to its digest.
- `HeapTree`, `Merkle`, `Queries`, `Lookup`, `Verification`: the tree by level-order positions, what a
  recomputation proves about the data file, the package queries, and what the programs conclude.
- `PackageTree`, `PackageQueries`: the same as linked, mutable nodes, as the program builds and walks them.
- `Packets`, `Splitting`: the wire format, the send loop, and reassembly by the receiver.
- `Protocol`, `Requests`, `Safety`, `Pledges`, `Completion`, `Progress`, `Copies`: any number of peers and
  connections, FIFO channels of whole packets, and every interleaving of fetches, with an offset of the user's
  own or without, verifications, single RES sends, deliveries, pings, completion checks and package additions.
- `Gate`, `Misdirection`: exactly which requests are safe.
- `Handlers`, `Turns`, `Commands`: the two packet loops of a peer, what each does with each kind of packet and
  how they fit the protocol, and the FETCH and PACKAGES commands.

The tree and protocol theorems hold for every hash function `H` with results of 64 characters; nothing is
assumed injective, and nothing is assumed of strings that are never hashed. A theorem that depends on the hash
is of one of these kinds.

- It hands back two colliding strings: `MatchOrCollision`, `RootVouchesForFile`, `CompletedMeansOriginal`.
- It is about pairs that one recomputation hashes (`NoPairCollision`): `MinimumCover`, `TwoQueriesAgree`.
- It is about one peer's check of its own file (`Genuine`), or concludes of a run "or here is a state and a peer
  whose file makes the hash collide" (`ForgeryAt`). Such a file holds other bytes for a chunk with the chunk's
  hash, or a pair of hashes recomputed from it collides with the pair the package was made from;
  `Safety.NotGenuineCollides` turns it into the two strings.
- It states an exact condition, "or the original with the one byte x changed makes the hash collide":
  `Gate.GateIsExact` and the three `...SafetyIsExact`. The latter also take the identifier to fit its field of
  1024 bytes.

`PackageQueries` runs the tree code with `Sha256Hex`.

The main results are these.

- `Sha256.HashParts`: init, one update per string, finalize and hex output give the FIPS 180-4 digest of
  the concatenation, for any list of strings.
- `ShaExample.ExampleDigest`: that definition gives the message abc the digest the standard's example has;
  `ShaFacts.KIsCubeRoot` and `H0IsSquareRoot` derive every constant from its prime.
- `Merkle.RootVouchesForFile` and `Verification.CompletedMeansOriginal`: a matching root means the file is
  the original byte for byte, or two strings collide.
- `Lookup.MinimumCover`: the min-hashes query returns an antichain that stands for exactly the complete
  leaves, and no smaller set of nodes does. `Lookup.TwoQueriesAgree` ties it to the completed-chunks query.
- `HeapTree.FileOrderIffPerfect`: leaves stand in file order exactly when their number is a power of two.
- `Splitting.AnyOrderReassembles`: the packets of a range, written in any order and with any repetition,
  reproduce it and touch nothing else.
- `Turns.LoopIsProtocol`: the packet loops do what the protocol does. Over any packets without ACP and DSN they
  leave the peer, and send, as delivering the packets one by one and sending each time to the end does.
- `Misdirection.SafetyIsExact`: the transfer is not safe for every request, and this says for which it is.
  FETCH looks a hash up in the chunk array and asks for the chunk's length at its offset or at the one given;
  the server looks the hash up in the tree, checks the node found, and sends the range. A request is covered if
  its range lies in the file and every chunk it meets lies below that node (`Requests.RangeCovered`). For any
  set of requests, every run that fetches only these is safe if and only if they are all covered.
  `Misdirection.MisdirectedRun` gives the bad run for any request that is not, with nothing asked of the hash,
  and `Gate.GateIsExact` says the same of a single check. Two cases are spelled out. Without offsets all
  depends on the package (`DefaultSafetyIsExact`): two equal chunks out of three
  (`Gate.ThreeChunksUncovered`) or a chunk that holds the hashes of two others as text
  (`Gate.FourChunksUncovered`) are enough to fail, and `Gate.WhenAligned` gives two checkable conditions that
  suffice. If both look-ups mean the same chunk by every hash, exactly the requests for the chunk's own place
  are safe (`AlignedSafetyIsExact`): any other offset asks for bytes that nobody checks.
- `Completion.TransferIsSafe`: in every run in which each FETCH is covered, or goes to a peer that has the range
  right, every RES carries true bytes, a complete chunk stays complete although files are written between
  verification and sending, and no request meets a null pointer. Files of any length and missing files are
  allowed: a verification that gives up early leaves older results in the tree, and these are shown to be
  harmless. `Completion.DefaultRunIsSound`: without offsets, in a covered package, all runs are such.
- `Completion.FetchesComplete` and `Progress.FetchesCanComplete`: in such a run, a peer that fetches each chunk
  it lacks from a holder ends with the original file, reported COMPLETED, once the connections used are quiet;
  and from any point of the run deliveries and sends alone lead to such an end, because every connection that
  is not quiet can move (`Progress.BusyCanMove`) and every such step uses up what is on its way
  (`Progress.PendingStepFalls`).
- `Copies.UnaskedStays` and `Copies.FetchOutcome`: a byte that no FETCH of a run asks for changes at no peer,
  but for zeros filled in, with nothing asked of the hash or of the requests; and a peer that has fetched the
  rest has the original exactly when what nobody asked for was right from the start or is such a zero. FETCH
  without an offset names the first chunk with a hash, so it never asks for a later chunk with the same hash
  (`Copies.DefaultSkipsCopies`); FETCH with that chunk's offset does, and gets it from a peer that has both
  (`Copies.CopyIsFetchedByOffset`).

Hash strings are taken to be 64 characters other than NUL, so that `strncmp` over 64 characters is
equality. The initial contents of memory from `malloc` are arbitrary, except that a computed hash not yet
written is taken not to equal the expected one (`Protocol.Unverified`).

Where documentation and code differ, the model follows the code. `include/chk/pkgchk.h:82-84` says that a
package whose first half is complete yields half the number of chunks plus one hashes; the code yields one
(`Queries.HalfIsOneHash`). `README.md:67-69` says that the offset given to FETCH narrows a hash down to a place in the file; the code
takes the first chunk with the hash and asks for its size at the offset given, and the server checks the node
its own search finds, not the bytes at that offset. An explicit offset of 4294967295 counts as none
(`Commands.FetchCommand`).

## Model

| member | source | states |
|---|---|---|
| Bytes.LittleEndianRoundTrip | src/peer.c:117-119 | a number copied out as k little-endian bytes is read back unchanged if k bytes can hold it |
| Bytes.LittleEndianPrefix | src/packet.c:135-136 | copying only the first bytes of a little-endian number keeps its low-order part |
| Bytes.BigEndianRoundTrip | src/crypt/sha256.c:185-190 | the big-endian size field determines the size |
| Bytes.BigEndianSuffix | src/crypt/sha256.c:185-190 | the last bytes of a big-endian number are its low-order end |
| Bytes.Memcpy | src/crypt/sha256.c:142-147 | memcpy replaces exactly the named range and leaves the rest of the buffer |
| Fips180.ZeroPad | src/crypt/sha256.c:174-182 | the zero padding is the least that makes message, stop bit and length field end on a block boundary |
| Fips180.FoldPrefix | src/crypt/sha256.c:154-158 | the chaining words after n blocks depend on those n blocks only |
| Fips180.PadInjective | src/crypt/sha256.c:166-193 | two messages below 2^61 bytes with the same padded blocks are equal |
| ShaFacts.ChChooses | src/crypt/sha256.c:102-103 | the choice function takes each bit from its second argument where the first has a one, and from its third where it has a zero |
| ShaFacts.MajAgrees | src/crypt/sha256.c:111-113 | wherever two arguments agree the majority function agrees with them, whatever their order |
| ShaFacts.KIsCubeRoot | src/crypt/sha256.c:10-43 | the t-th constant is the fraction of the cube root of the t-th prime, to thirty-two bits |
| ShaFacts.H0IsSquareRoot | src/crypt/sha256.c:48-55 | the i-th initial word is the fraction of the square root of the i-th prime, to thirty-two bits |
| ShaFacts.DigitsInOrder | src/crypt/sha256.c:209 | the table of digits rises from 0 to 9 and from a to f |
| ShaExample.ExampleDigest | src/crypt/sha256.c:64-224 | the message abc has the digest ba7816bf 8f01cfea 414140de 5dae2223 b00361a3 96177a9c b410ff61 f20015ad |
| Sha256.ScheduleS0 | src/crypt/sha256.c:82-84 | the shifts of the rotate macro make the standard's small sigma 0 |
| Sha256.ScheduleS1 | src/crypt/sha256.c:86-88 | the shifts of the rotate macro make the standard's small sigma 1 |
| Sha256.RoundS0 | src/crypt/sha256.c:107-109 | the shifts of the rotate macro make the standard's big sigma 0 |
| Sha256.RoundS1 | src/crypt/sha256.c:98-100 | the shifts of the rotate macro make the standard's big sigma 1 |
| Sha256.AddReordered | src/crypt/sha256.c:90 | the order in which the code adds the schedule terms does not matter on wrapping words |
| Sha256.Schedule | src/crypt/sha256.c:69-91 | the array w filled in place is the message schedule of section 6.2.2 |
| Sha256.Temporaries | src/crypt/sha256.c:98-115 | temp1 and temp2 are the two sums of a round |
| Sha256.ShiftInPlace | src/crypt/sha256.c:117-124 | the eight in-place assignments leave the working variables of the next round |
| Sha256.AllRounds | src/crypt/sha256.c:97-125 | sixty-four shifting updates of tv are the sixty-four rounds of section 6.2.2 |
| Sha256.CalculateChunk | src/crypt/sha256.c:64-130 | the in-place compression is the compression of section 6.2.2 for every chaining value and block |
| Sha256.WholeBlocks | src/crypt/sha256.c:154-158 | the loop compresses every whole block left in the caller's bytes and stops with the rest |
| Sha256.Absorb | src/crypt/sha256.c:140-161 | after an update the buffer holds the bytes of the incomplete block and the chaining words cover all whole blocks of everything fed in |
| Sha256.PadOneBlock | src/crypt/sha256.c:171-192 | with at most 55 buffered bytes finalize processes one block, which is the rest of the padded message |
| Sha256.PadTwoBlocks | src/crypt/sha256.c:179-182 | otherwise it processes two, and together they are the rest of the padded message |
| Sha256.WriteSize | src/crypt/sha256.c:185-190 | the size loop writes the 64-bit size most significant byte first over the last eight bytes |
| Sha256.Finish | src/crypt/sha256.c:166-193 | finalize leaves the hash value of the whole message |
| Sha256.Sha256Data.constructor | src/crypt/sha256.c:47-60 | initialisation is the state after no bytes at all |
| Sha256.Sha256Data.Update | src/crypt/sha256.c:134-162 | an update extends what has been absorbed, and the state is determined by that |
| Sha256.Sha256Data.Finalize | src/crypt/sha256.c:166-193 | after finalize the chaining words are the hash value of everything absorbed |
| Sha256.Sha256Data.Output | src/crypt/sha256.c:196-204 | the words are written out most significant byte first |
| Sha256.BinToHex | src/crypt/sha256.c:207-216 | every byte becomes two digits of the table |
| Sha256.HexRoundTrip | src/crypt/sha256.c:207-216 | decoding the digits gives the bytes back |
| Sha256.HexDecodes | src/crypt/sha256.c:219-224 | the printed hash decodes to the chaining words, so comparing strings compares digests |
| Sha256.HashParts | src/crypt/sha256.c:134-224 | streaming any list of strings gives the hex digest of their concatenation as FIPS 180-4 defines it |
| Sha256.AbsorbedDeterminesState | src/crypt/sha256.c:134-162 | two states that have absorbed the same bytes agree on size, buffer and chaining words, however the bytes were divided |
| Sha256.FeedBothWays | src/crypt/sha256.c:134-162 | updating with a and then b, and updating once with a followed by b, both absorb a followed by b and leave the same logical state |
| HeapTree.UnderSplits | src/chk/pkgchk.c:233-245 | what lies below a node lies below exactly one of its children, so subtrees are disjoint |
| HeapTree.PreorderVisits | src/chk/pkgchk.c:580-599 | a preorder walk meets every node of a subtree exactly once |
| HeapTree.PreorderParentFirst | src/chk/pkgchk.c:587-589 | the search meets a node before everything below it |
| HeapTree.PreorderLeftFirst | src/chk/pkgchk.c:591-598 | and what is below its left child before what is below its right one |
| HeapTree.PostorderVisits | src/chk/pkgchk.c:710-729 | so does the walk that frees the tree |
| HeapTree.PostorderChildrenFirst | src/chk/pkgchk.c:716-728 | a node is freed after everything below it |
| HeapTree.LeavesVisits | src/chk/pkgchk.c:606-649 | the leaf walk meets every leaf of a subtree exactly once and nothing else |
| HeapTree.LeavesLeftFirst | src/chk/pkgchk.c:606-649 | the leaves below a left child come before those below the right one |
| HeapTree.PerfectLeaves | src/chk/pkgchk.c:606-649 | in a perfect tree the j-th node of depth d has the j-th run of 2^(h-d) chunks below it, in file order |
| HeapTree.FileOrderIffPerfect | include/chk/pkgchk.h:39-41 | the leaves stand in file order if and only if their number is a power of two |
| Merkle.ExpectedIsListed | src/chk/pkgchk.c:231-263 | the hash the tree expects at a position is the one the package lists for it: internal hashes in order, then those of the chunks |
| Merkle.SealedInLists | src/chk/pkgchk.c:432-450 | a package is sealed when each internal hash listed is that of the two listed at 2k + 1 and 2k + 2 |
| Merkle.MatchOrCollision | src/chk/pkgchk.c:420-454 | a node whose recomputed hash is the expected one has every leaf below it right, or two colliding strings are handed back |
| Merkle.LeavesForceNode | src/chk/pkgchk.c:432-450 | leaves that all match force every node above them, for any hash function |
| Merkle.NodeMatchesIffLeavesDo | src/chk/pkgchk.c:469-475 | without a collision among the pairs hashed, a node matches exactly when all leaves below it do |
| Merkle.RootVouchesForFile | src/chk/pkgchk.c:516-574 | a file whose recomputed root is the expected one is the original byte for byte, or two strings collide |
| Queries.MinCoverIsAntichain | src/chk/pkgchk.c:456-504 | the reported nodes match and none lies below another |
| Queries.CoverExpandsToCompleteLeaves | src/chk/pkgchk.c:456-504 | replaced by their leaves, the reported nodes are exactly the complete leaves, each once and in order |
| Queries.MinCoverIsSmallest | src/chk/pkgchk.c:509-510 | no set of nodes that stands for exactly the complete leaves is smaller |
| Queries.HalfIsOneHash | include/chk/pkgchk.h:81-84 | with the left half below a node complete and nothing of the right, one hash is reported for it |
| Lookup.FindIsFirstInPreorder | src/chk/pkgchk.c:580-599 | the search returns the first match in preorder |
| Lookup.FindIsComplete | src/chk/pkgchk.c:580-599 | it finds nothing exactly when no node carries the hash |
| Lookup.FindChunk | src/btide.c:350-362 | the loop of FETCH finds the first chunk with the hash |
| Lookup.PerfectTreeSameTarget | src/packet.c:94 | in a perfect tree, FETCH and the server mean the same chunk by any hash no internal node carries |
| Lookup.DistinctHashSameTarget | src/packet.c:94 | so they do in a tree of any shape whose hashes are distinct |
| Lookup.ThreeChunksPart | src/packet.c:94 | with three chunks of which the first two are equal, FETCH means the first and the server the second |
| Lookup.TwoQueriesAgree | src/chk/pkgchk.c:350-415 | in a perfect tree the min-hashes answer, expanded, is the completed-chunks answer, order included; both are empty when a chunk runs past the end of the file |
| Lookup.MinimumCover | src/chk/pkgchk.c:507-514 | after a recomputation without collisions the answer is an antichain, stands for exactly the complete leaves, and is the smallest that does |
| Lookup.CompletedUpToLists | src/chk/pkgchk.c:370-411 | the completed-chunks answer is the hashes of exactly the chunks whose data is right, in chunk order |
| Lookup.UnknownHashHasNoChunks | src/chk/pkgchk.c:673-676 | a hash the package does not list stands for no chunk |
| Lookup.HashListsChunksBelow | src/chk/pkgchk.c:662-682 | in a tree of any shape with distinct hashes, a node's hash stands for the chunks below it, each once and no other |
| Lookup.HashStandsForRun | include/chk/pkgchk.h:93-99 | a node's hash yields the run of chunks below it: the root's all of them, its left child's the first half |
| Verification.LeafAfterVerify | src/chk/pkgchk.c:527-563 | a check leaves in a leaf the hash of its data now if its chunk comes before the first that cannot be read in full, and otherwise what was there before |
| Verification.ReportIsRootMatch | src/btide.c:255-286 | if no other node expects the root's hash, COMPLETED is reported exactly when the whole file is readable and its root matches |
| Verification.TrueFileReportsCompleted | src/btide.c:255-286 | a file that agrees with the original is reported COMPLETED, with no assumption on the hash |
| Verification.CompletedMeansOriginal | src/btide.c:255-286 | a file reported COMPLETED is the original, or two strings collide |
| PackageTree.Attach | src/chk/pkgchk.c:231-248 | linking a node under position (i-1)/2 extends the level-order heap by position i |
| PackageTree.BuildMerkleTree | src/chk/pkgchk.c:197-274 | the nodes built are distinct; node k expects the k-th internal hash and has its children at 2k+1 and 2k+2; chunk i's node is the leaf at position nhashes + i and expects the chunk's hash; without internal hashes there is a single leaf for the first chunk, and the chunk links are untouched |
| PackageQueries.FindHash | src/chk/pkgchk.c:580-599 | the recursive search over linked nodes finds the node at the position the search over positions finds |
| PackageQueries.MinCompletedHashes | src/chk/pkgchk.c:456-504 | the helper returns the hashes of the minimal cover below its node |
| PackageQueries.AllChunkHashes | src/chk/pkgchk.c:606-649 | the helper returns the hashes of the leaves below its node from left to right |
| PackageQueries.TreeDestroy | src/chk/pkgchk.c:710-729 | nodes are freed in postorder |
| PackageQueries.ComputeHashes | src/chk/pkgchk.c:420-454 | the hashes below a node become those recomputed from the leaves, and no other node changes |
| PackageQueries.PackageObj.constructor | src/chk/pkgchk.c:173-176 | a loaded package owns a full tree of fresh nodes |
| PackageQueries.PackageObj.HashLeaves | src/chk/pkgchk.c:527-563 | the loop hashes exactly the chunks before the first that cannot be read in full |
| PackageQueries.PackageObj.GetMinCompletedHashes | src/chk/pkgchk.c:516-574 | the computed hashes in the tree become those of a check of the file, and the answer is the hashes of the minimal cover |
| PackageQueries.PackageObj.GetCompletedChunks | src/chk/pkgchk.c:350-415 | the hashes of the chunks whose data is right, in chunk order, or none if some chunk cannot be read |
| PackageQueries.PackageObj.GetAllChunkHashesFromHash | src/chk/pkgchk.c:662-682 | the chunk hashes below the node the hash is found at, none if it is not found |
| PackageQueries.PackageObj.Destroy | src/chk/pkgchk.c:710-729 | every node of the tree is freed, none twice, and each after its children |
| Packets.ReqRoundTrip | src/peer.c:117-124 | decoding a REQ gives the offset, length, hash and identifier encoded |
| Packets.ShortRoundTrip | src/packet.c:135-136 | the two bytes of the length that travel are enough |
| Packets.ResRoundTrip | src/peer.c:145-153 | decoding a RES gives the offset, data, length, hash and identifier encoded, and the fields fill the payload |
| Packets.ReqLayout | src/packet.c:57-62 | offset, length, hash and identifier of a REQ start 0, 4, 8 and 72 bytes into the payload, and zeros follow |
| Packets.ResLayout | src/packet.c:127-140 | offset, data, length, hash and identifier of a RES start 0, 4, 3002, 3004 and 3068 bytes into the payload, with zeros after short data |
| Packets.GenerateReq | src/packet.c:50-65 | the copies into the payload lay the fields out one after the other |
| Packets.BuildRes | src/packet.c:121-140 | the copies into the payload lay the fields out one after the other, with zeros after short data |
| Splitting.SendPieces | src/packet.c:107-148 | the send loop ends and sends the pieces of the range; for a length of 2^31 or more it sends nothing |
| Splitting.PieceCount | src/packet.c:115-119 | a range is cut into one packet for every started run of 2998 bytes |
| Splitting.PieceAt | src/packet.c:145-147 | the i-th packet starts i times 2998 bytes into the range, so the packets tile it |
| Splitting.PiecesNameTheirChunk | src/packet.c:137-140 | every packet of a range is a RES without error and carries the hash and the identifier asked for |
| Splitting.ReceivedByte | src/peer.c:168-178 | after any true writes a byte is the sender's if a packet touched it and the receiver's if none did |
| Splitting.AnyOrderReassembles | src/packet.c:109-148 | the packets of a range in any order and with any repetition reproduce it and leave every other byte |
| Protocol.SameIdentIff | src/dyn_array.c:257 | identifiers match when they agree on the first twenty characters, up to and including the first NUL |
| Protocol.OtherPackageIsLeftAlone | src/packet.c:77-87 | for an identifier that differs there a REQ is refused and checks nothing, a RES changes nothing, and the package is not managed |
| Protocol.OwnPackageIsManaged | src/dyn_array.c:257 | for one that agrees there the package is managed |
| Safety.NotGenuineCollides | src/chk/pkgchk.c:432-450 | a file on which a check would be deceived shows two strings with the same hash |
| Safety.NodeMarkIsHonest | src/chk/pkgchk.c:469-475 | a node recomputed from a file without collisions matches only if every chunk below it is complete |
| Safety.CheckIsHonest | src/packet.c:89-92 | a check marks only nodes with complete chunks below them, also when it gives up early and leaves older marks |
| Safety.GateIsSound | src/packet.c:94-105 | of the requests that are covered or go to a peer that has the range right, those served are for a range that is right at the server, and none meets a null pointer or leaves the range of int |
| Safety.ResLosesNothing | src/peer.c:155-178 | a true RES turns no right byte of a file wrong |
| Safety.PieceIsTrue | src/packet.c:130-147 | a RES read from the file at the moment of sending is true while the range is right, and so is what is left |
| Safety.StepIsSafe | src/peer.c:77-181 | every step of the system, a FETCH being covered or sent to a peer that has the range right, keeps the invariant and loses no right byte at any peer |
| Requests.OwnRangeCoveredIff | src/btide.c:383-387 | without an offset a request is covered exactly when the node the server finds is the chunk's leaf or above it |
| Requests.AlignedCoversOwnOffset | src/btide.c:383-391 | where both look-ups mean the same chunk, a request is covered exactly when its offset is the chunk's own |
| Gate.CoveredIsGuarded | src/packet.c:94-105 | if the range asked for lies below the node found, only files with the whole range right pass the check |
| Gate.UncoveredIsMissed | src/packet.c:94-105 | if it does not, the original with one byte of the range spoiled passes the check, for any hash function |
| Gate.GateIsExact | src/packet.c:94-105 | the check protects the range asked for if and only if it lies in the file and below the node found |
| Gate.WhenAligned | src/btide.c:350-362 | both searches mean the same chunk if all hashes are distinct, or if the tree is perfect and no internal hash equals a chunk hash |
| Gate.ThreeChunksUncovered | src/packet.c:94-105 | with three chunks of which the first two are equal, the check for the first looks at the second |
| Gate.FourChunksUncovered | src/packet.c:94-105 | with a last chunk that holds the hashes of the first two as text, the check for the last looks at the first two |
| Misdirection.MisdirectedRun | src/packet.c:89-148 | for every FETCH that is not covered there is a run of that FETCH, its delivery and sends that ends with a false RES in flight, or with a request that cannot be answered if no int holds its range, for any hash function |
| Misdirection.SafetyIsExact | src/packet.c:89-148 | every run that fetches only what is allowed is safe if and only if all that is allowed is covered |
| Misdirection.DefaultSafetyIsExact | src/btide.c:383-387 | every run without offsets is safe if and only if the tree search for every chunk FETCH can pick ends at its leaf or above it |
| Misdirection.AlignedSafetyIsExact | src/btide.c:383-391 | where both look-ups mean the same chunk, every run that fetches only what is allowed is safe if and only if nothing allowed asks for another place than the chunk's own |
| Pledges.HeldIsServed | src/packet.c:89-110 | a peer that has the range, and all chunks below the node checked, and if that node is internal a file that reaches to the end, serves the request in full, for any hash function |
| Pledges.ServedIffBelowComplete | src/packet.c:89-105 | a request is served only if every chunk below the node found is complete, exactly then if that node is a leaf or the file can be read in full, and is refused otherwise, even by a peer that has the chunk asked for |
| Pledges.AlignedHolds | src/packet.c:94-110 | where both look-ups mean the same chunk, a peer with the first chunk that has a hash and with the range asked for serves it |
| Pledges.PledgedAfterStep | src/peer.c:77-181 | through every step each byte fetched stays accounted for: right, in flight, still to be sent, or still requested |
| Pledges.FetchPledges | src/btide.c:382-391 | a fetch from a peer that holds what is asked, with an offset or without, starts that account |
| Pledges.QuietRedeems | src/peer.c:168-178 | when the connection is quiet the range asked for is right at the asking peer |
| Completion.TransferIsSafe | src/packet.c:89-148 | in every run in which each FETCH is covered or goes to a peer that has the range right, every RES is true, a complete chunk stays complete, and no request meets a null pointer, or a file some peer held makes the hash collide |
| Completion.FetchesComplete | src/btide.c:350-391 | in such a run a peer that fetches every chunk it lacks from holders ends with the original file, reported COMPLETED, or a file some peer held makes the hash collide |
| Completion.DefaultRunIsSound | src/btide.c:383-387 | without offsets, in a package where the tree search never misses, every run is such |
| Progress.BusyCanMove | src/peer.c:77-181 | in a reachable state a connection on which something is on its way has a delivery or a send that can happen |
| Progress.PendingStepFalls | src/packet.c:115-147 | each delivery and each send makes what is on its way less, by a measure over channels and send loops |
| Progress.RunQuietens | src/peer.c:77-181 | every such run can be continued by deliveries and sends alone until nothing is on its way |
| Progress.FetchesCanComplete | src/btide.c:350-391 | in such a run, once a peer has asked holders for all it lacks, deliveries and sends alone lead to the original file, reported COMPLETED |
| Copies.UnaskedStays | src/packet.c:107-148 | in any run, a byte that no FETCH asks for changes at no peer, and is zero where a file comes to hold it |
| Copies.UnaskedIsCompleteIff | src/peer.c:155-178 | a chunk nobody asks for is complete exactly when its bytes were right from the start or are zeros filled in |
| Copies.DefaultSkipsCopies | src/btide.c:350-362 | without an offset no FETCH asks for a byte of a chunk whose hash an earlier chunk has |
| Copies.CopyIsFetchedByOffset | src/btide.c:383-391 | with such a chunk's offset FETCH asks for it, and a peer that has both chunks serves it |
| Copies.FetchOutcome | src/btide.c:350-391 | a peer that has fetched all but what nobody asked for has the original exactly when that was right from the start, but for zeros filled in |
| Handlers.Process.SetConnected | src/dyn_array.c:92-133 | the first entry for the address gets the flag; every other entry, and the order, stay |
| Handlers.Process.RemoveConnection | src/dyn_array.c:59-87 | the first entry for the address leaves the list; the earlier ones stay and the later ones move up |
| Handlers.Process.GenerateAndSendRes | src/packet.c:73-152 | one error packet exactly if the package is not managed or the node found does not match; nothing where C leaves the outcome undefined; otherwise the pieces of the range asked for, from the file as it is |
| Handlers.Process.TakeRes | src/peer.c:132-179 | an error or a package not managed changes nothing; otherwise the bytes of the range named are the packet's, every other byte is as before, a gap reads as zeros, and a missing file is first the package's size in zeros; the computed hashes stay |
| Handlers.Process.ServerHandleClient | src/peer.c:65-186 | the server loop sends ACP first and then does what its step function says, to the end of the connection |
| Handlers.Process.ClientHandleServer | src/peer.c:318-439 | the client loop does what its step function says, to the end of the connection |
| Handlers.LoopsAgree | src/peer.c:318-433 | on packets without ACP the two loops as started end with the same file, hashes, connection list and outcome, and the server sends its ACP and then just what the client sends |
| Turns.AcpTurn | src/peer.c:329-338 | ACP at the connecting side sends ACK and marks the first entry for the address connected; at the accepting side it does nothing |
| Turns.DsnTurn | src/peer.c:340-344 | DSN takes the first entry for the address out of the list and ends the loop |
| Turns.PngTurn | src/peer.c:346-351 | PNG is answered by POG, and nothing else changes |
| Turns.ReqTurn | src/peer.c:357-379 | REQ is answered by an error report or by the pieces of the range asked for; the file and the connections stay |
| Turns.ResTurn | src/peer.c:380-431 | RES writes its bytes into the range it names if it is no error report and the package is managed, and changes nothing else |
| Turns.LoopEnds | src/peer.c:435-440 | when a loop is over the first entry left for the address counts as disconnected |
| Turns.TurnIsProtocol | src/peer.c:77-181 | a turn leaves the peer, and sends, as the protocol's delivery of the packet and the sends of the job it starts do |
| Turns.LoopIsProtocol | src/peer.c:77-181 | over any packets without ACP and DSN a loop leaves the peer, and sends, as delivering them one by one and sending each time to the end does |
| Commands.CheckConnected | src/dyn_array.c:139-155 | the first entry for the address decides |
| Commands.FetchCommand | src/btide.c:337-391 | FETCH refuses in the order of the code, an unmanaged package exactly if the peer is connected and no identifier matches, or asks for the first chunk whose hash is the first 64 characters of the argument, at its own offset or the one given; a shorter argument is refused |
| Commands.FetchIsStep | src/btide.c:382-391 | what FETCH sends, with an offset or without, is the fetch step of the protocol |
| Commands.PackageCompleted | src/btide.c:259-286 | the completion test of PACKAGES on the linked tree is the report the lemmas speak of |

## Left out

- Sockets, partial reads, time-outs, thread creation and shutdown: packets arrive whole and in order, and a connection stays for the run; DSN is handled in `Handlers` only.
- Two threads checking one package at the same time: a check is one step.
- REMPACKAGE during a transfer, which frees a package another thread may be using.
- Parsing of package files, configuration and commands, printing, and the pkgmain program.
- The list of packages: a peer manages at most the one package of the model, found by the first 20 characters of its identifier; packages with other files do not interact with it.
- The growable arrays, their locks and capacities, and the limit on the number of peers.
- Packages without internal hashes, beyond building their tree; packages with an empty chunk; chunks of 2^31 bytes and more, and in the protocol files of that size.
- Sha256Data.Update: lengths at which `size + chunk_size` leaves the range of 32 bits are excluded.
- Fairness of the scheduler: a run in which nobody takes the steps that are possible does not go on.
- Handlers.Process.GenerateAndSendRes: the loops keep the computed hashes as a sequence; the linked tree is in `PackageQueries`, whose check is proved to give the same sequence. Offsets beyond the range of int, and a null node or file, end the run as undefined, in the protocol too.
- A RES that names more than 2998 bytes, which no sender of the model makes.
- Buffering by the C library between a write and a later read of the same file.
- Allocation failure, freeing of query results, the unused key and value of a node, bpkg_get_all_hashes, packet_dump.
