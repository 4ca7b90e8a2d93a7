# Proofs of the runtime-free core

This project models the shared C core of the V9x remote agent and the host code that answers it, and
proves what the comments there promise. Nothing here runs the original program: each module states
what a component computes as functions on plain values, gives the component's own loops and state as
methods and classes proved against them, and proves the promises as lemmas about those functions.

`dafny verify dfyconfig.toml` checks the whole project.

## How it is laid out

- **Ed25519** (`Congruence`, `LittleEndian`, `BitString`, `Ed25519Field`, `EdwardsLaw`,
  `EdwardsPoints`, `Ed25519Curve`, `Ed25519Roots`, `Ed25519Points`, `Ed25519Scalars`). A field element is 32 limbs in 32-bit words and
  stands for a residue mod p. The limb methods are proved to stay inside their words and to compute on
  residues; the point formulas are proved for any coefficient d and any modulus, from the two relations
  -X^2+Y^2 = Z^2+dT^2 and XY = ZT, without dividing, and `Ed25519Curve.ED25519` is the curve in use.
  `Ed25519Roots` says which strings decode; where it needs Fermat's theorem for p, that is a hypothesis.
- **Raw Deflate** (`Huffman`, `InflateCode`, `InflateSpec`, `InflateBits`, `InflateMachine`,
  `InflateTheorems`, `InflateStreams`). `InflateSpec` is a decoder of RFC 1951 on the bits of the input with
  no bound on the output; the mutable state refines it into a bounded buffer. `InflateStreams` writes
  streams by the rules of the standard, not by the decoder's tables, and proves that they read back.
- **Screenshots** (`ShotPlan`, `ShotImage`, `ShotBmp`, `ShotResample`, `ShotPalette`, `ShotIndex`,
  `ShotRle8`, `ShotApply`, `ShotHost`). `ShotImage` is the host's decoder and its own shaping of an
  image; the agent's transform is proved to be inverted by the one into the other.
- **The relay** (`RelayText`, `RelayRecord`, `RelayAgent`, `RelayRuns`, `RelayResign`, `RelaySession`). The
  hash and the signature scheme are parameters about which nothing is assumed: the run theorem says that
  the bytes fed are a prefix of the operator's stream or that the run itself contains a record the
  operator never released, with a signature that verifies, or two chunks with one hash.
- **SHA-512** (`Sha512Constants`, `Sha512Words`, `Sha512Spec`, `Sha512`). A word is its string of bits,
  as in section 3.1 of FIPS 180-4; a pair of 32-bit halves is joined into one of 64.
- **Uploads** (`FileStore`, `UploadAgent`, `UploadClient`, `UploadRun`, `UploadTheorems`). Client and
  agent are joined by two first-in first-out channels and interleaved in every way; file operations
  may fail at any point.
- **Tail of a text file** (`TextLines`, `TextScan`), **mDNS** (`MdnsWire`, `MdnsWriter`, `MdnsReader`,
  `MdnsTheorems`) and **INI repair** (`IniRepair`).

`Wrappers` and `Sequences` hold what several of these share.

## Where the code falls short of a promise

- **Signing on after a failed flush.** `RelaySession._flush` takes the pending bytes, signs them under the
  current number and moves the number on only after every post succeeded. When the signer fails or a post
  raises and the caller goes on with the session, the next flush signs other bytes under the same number.
  After a failed signer the lost bytes are simply missing, with an honest server; after a failed post the
  server may hold both batches and choose. `RelayResign.ReuseBreaksThePrefix` gives a run for either,
  `RelayResign.BreaksIff` the exact condition: with `lost` the bytes of the failed flush and `y` those of
  the next, the stream survives if and only if `y`, followed by the chunks of `lost` numbered behind it,
  and `lost` (if it was posted), followed by the chunks of `y` numbered behind it, both begin `lost + y`.
  For batches of one chunk, and after a failed signer, that is: `y` begins `lost + y`
  (`RelayResign.SurvivesShort`); for longer ones it is more (`RelayResign.LongBatch`).
  `RelayRuns.FedIsPrefix` shows that giving the session up after such a flush is enough. A flush that
  raises because of the server's answer has already moved the number and does no harm.
- **Repeating a chunk whose write failed.** The agent counts and checksums the payload, not the file.
  When `WriteFile` fails after writing some bytes and a client repeats the chunk, the file holds those
  bytes twice while count and CRC match, and the commit is confirmed.
  `UploadAgent.RetryAfterShortWriteCorrupts` is the example; `UploadAgent.CommitConfirms` says that the
  file is right exactly when no failed write left bytes. `put_stream` never repeats a chunk, so its own
  uploads are right (`UploadTheorems.DoneMeansInPlace`).
- **"The temp file is always consumed."** It stays behind exactly when the promotion fails and the deletion
  of the temp file fails too (`FileStore.TempLeftBehind`); `FileStore.TempNotConsumed` is such a case.
- **The long-line flag.** Text lost is always flagged, but the flag does not mean loss. A line keeps its
  whole text exactly when it has at most 1024 bytes before its LF, or 1025 of which the last is a CR and
  the one before it is not (`TextLines.KeptWhole`); in the second case it is flagged all the same, as
  1024 letters and CR LF are (`TextLines.FlaggedWhole`). When the 1024th byte is a CR as well, it is
  stripped with the rest, text is lost and the flag is right. `TextScan.FlagMeans` says it of a whole
  answer.

## Model

| member | source | states |
|---|---|---|
| Ed25519Field.CarryPass | src/common/ed25519.c:214-227 | from any limbs below 2^31 one pass moves every excess upwards without a word overflowing, folds what leaves the top back at 38 a unit, and leaves limbs 1 to 31 as bytes |
| Ed25519Field.TwoPassesSuffice | src/common/ed25519.c:229-249 | two passes carry any limbs below 2^31 to a carried element of the same class mod p: limb 0 at most 293, the others at most 255 |
| Ed25519Field.Carry | src/common/ed25519.c:245-249 | carrying keeps the class mod p and ends carried |
| Ed25519Field.FeAdd | src/common/ed25519.c:253-263 | the sum mod p, carried, for all carried inputs and when the output is an input |
| Ed25519Field.EightPValue | src/common/ed25519.c:265-286 | the limbs the subtraction adds first are 8p, so nothing goes negative and the class does not move |
| Ed25519Field.FeSub | src/common/ed25519.c:268-286 | the difference mod p, carried, no limb below zero on the way |
| Ed25519Field.MulColumns | src/common/ed25519.c:301-315 | the 64 columns stand for the exact product and none exceeds 32 products of two limbs |
| Ed25519Field.FeMul | src/common/ed25519.c:288-321 | the product mod p, carried; the fold at 38 keeps every column below 2^31 |
| Ed25519Field.BytesGe | src/common/ed25519.c:147-157 | the byte comparison from the top is the comparison of the numbers |
| Ed25519Field.BytesSub | src/common/ed25519.c:160-172 | subtraction with borrow is subtraction of the numbers when the first is not smaller |
| Ed25519Field.FeToBytes | src/common/ed25519.c:329-358 | the bytes are the one representative below p, for any limbs below 2^31 |
| Ed25519Field.SubtractTwice | src/common/ed25519.c:350-357 | at most two subtractions of p bring any 256-bit number below p |
| Ed25519Field.FeEqual | src/common/ed25519.c:360-369 | equal exactly on congruent elements |
| Ed25519Field.FeIsOdd | src/common/ed25519.c:372-378 | the parity of the canonical representative |
| Ed25519Field.FeIsZero | src/common/ed25519.c:380-386 | true exactly on the class of zero |
| Ed25519Field.FePow | src/common/ed25519.c:406-425 | square-and-multiply over the 256 bits of e is a^e mod p |
| Ed25519Field.FeInvert | src/common/ed25519.c:427-435 | a^(p-2) mod p: the exponent bytes stand for p-2 |
| Ed25519Curve.DMeetsItsDefinition | src/common/ed25519.c:56-65 | the stored d is -121665/121666 mod p |
| Ed25519Curve.Sqrtm1MeetsItsDefinition | src/common/ed25519.c:67-72 | the stored root squares to -1 mod p |
| Ed25519Curve.BaseMeetsItsDefinition | src/common/ed25519.c:74-86 | the stored base point has y = 4/5 and an even x |
| Ed25519Curve.BasePointOnCurve | src/common/ed25519.c:458-464 | the base point as loaded satisfies both curve relations |
| EdwardsPoints.AddKeepsCurve | src/common/ed25519.c:466-514 | for every d and modulus, the sum of two points with -X^2+Y^2 = Z^2+dT^2 and XY = ZT satisfies both relations |
| EdwardsPoints.AddMeetsAffineLaw | src/common/ed25519.c:466-514 | the sum is the point of the twisted Edwards addition law, stated without division |
| EdwardsPoints.DoubleKeepsCurve | src/common/ed25519.c:516-551 | doubling keeps both relations |
| EdwardsPoints.DoubleIsAdd | src/common/ed25519.c:516-551 | doubling gives the same projective point as adding a point to itself (coordinates differ by the factor -4) |
| EdwardsPoints.IdentityIsNeutral | src/common/ed25519.c:449-456 | adding the identity gives the same projective point back |
| EdwardsPoints.LadderOnCurve | src/common/ed25519.c:553-579 | every intermediate result of the scalar multiplication is on the curve |
| EdwardsPoints.LadderIsMultiple | src/common/ed25519.c:553-579 | the ladder computes the multiple by the scalar's value: any count mod n of a set of points, which doubling doubles and adding p raises by the count of p, is Value(s) times the count of p at the end |
| EdwardsPoints.LadderOfOne | src/common/ed25519.c:553-579 | for every scalar of value 1 and every point of the curve, the result is the same projective point |
| Ed25519Curve.RootIsRoot | src/common/ed25519.c:652-674 | the root kept by step 3 of decompression is a square root of u/v, also when it was turned by the root of -1 |
| Ed25519Curve.DecodedOnCurve | src/common/ed25519.c:599-690 | every accepted string gives a point on the curve with reduced coordinates and the encoded parity |
| Ed25519Curve.EncodeOfDecode | src/common/ed25519.c:583-690 | the number written for a decoded point is the number of the string it came from |
| Ed25519Curve.EncodeReproduces | src/common/ed25519.c:583-690 | every accepted 32-byte string is reproduced byte for byte |
| Ed25519Curve.DecodeInjective | src/common/ed25519.c:599-690 | two accepted strings of one point are the same string |
| Ed25519Roots.PointDecodes | src/common/ed25519.c:599-690 | every y below p and x on the curve with it, written as 32 bytes with the parity of x in the top bit, decodes to exactly (x, y), given Fermat's theorem for the two numbers involved |
| Ed25519Roots.DecodesIff | src/common/ed25519.c:599-690 | given Fermat's theorem for p, a string decodes to (x, y) if and only if both are reduced, on the curve, y is its low 255 bits and the parity of x its top bit |
| Ed25519Roots.EncodedScaled | src/common/ed25519.c:581-597 | the number written for any representation (xZ, yZ, Z) of a point is y with the parity of x in bit 255, given Fermat's theorem for Z |
| Ed25519Points.PointCopy | src/common/ed25519.c:440-447 | the copy stands for the same four residues |
| Ed25519Points.PointAdd | src/common/ed25519.c:466-514 | the limb code computes exactly the addition formulas, when the output is either input too |
| Ed25519Points.PointDouble | src/common/ed25519.c:516-551 | the limb code computes exactly the doubling formulas, in place too |
| Ed25519Points.PointBase | src/common/ed25519.c:458-464 | loads the base point |
| Ed25519Points.PointScalarMul | src/common/ed25519.c:553-579 | double-and-add over 256 bits is the ladder whose laws are LadderIsMultiple and LadderOfOne, when the output is the input too |
| Ed25519Points.PointEncode | src/common/ed25519.c:581-597 | writes y/Z canonically with the parity of x/Z in the top bit |
| Ed25519Points.PointDecode | src/common/ed25519.c:599-690 | accepts exactly the strings the decompression rules accept (y below p, a root exists, no negative zero) and yields exactly their point; which strings those are is DecodesIff |
| Ed25519Points.LoadCanonical | src/common/ed25519.c:633-642 | a y is taken exactly when its 255 bits are below p |
| Ed25519Points.RootTest | src/common/ed25519.c:663-674 | keeps the candidate, turns it by the root of -1, or refuses, exactly as the decompression rules say |
| Ed25519Points.FixSign | src/common/ed25519.c:676-683 | refuses the negative zero only, and otherwise gives x the encoded parity |
| Ed25519Points.Reencode | src/common/ed25519.c:581-690 | decoding a string and encoding the point gives the string back, on the limb code itself |
| Ed25519Scalars.ScalarReduce | src/common/ed25519.c:692-728 | the 512-bit input mod L; one subtraction per bit keeps the remainder below L |
| Ed25519Scalars.DivideBit | src/common/ed25519.c:713-727 | one step of the long division: shift a bit in, subtract L at most once |
| Ed25519Scalars.MuladdColumns | src/common/ed25519.c:739-754 | the columns stand for a*b+c exactly and never overflow |
| Ed25519Scalars.ScalarMuladd | src/common/ed25519.c:730-766 | (a*b+c) mod L; the sum always fits its 64 bytes |
| Huffman.KraftByLength | src/common/inflate.c:103-134 | the code space left by the counts is the Kraft sum of the lengths |
| Huffman.MatchUnique | src/common/inflate.c:158-199 | no two symbols of a canonical code match at one place: the code is prefix free |
| Huffman.CompleteNeverBad | src/common/inflate.c:158-199 | a complete code decodes every bit pattern: it never yields BAD_CODE |
| InflateCode.CheckSpace | src/common/inflate.c:118-128 | the running count is negative exactly for an over-subscribed set and zero exactly for a complete one |
| InflateCode.Build | src/common/inflate.c:91-156 | accepts exactly the sets with Kraft sum 1 or, when allowed, none or one code of length one, and then builds their canonical table |
| InflateMachine.State.Bits | src/common/inflate.c:63-89 | returns the next bits of the stream low bit first, or fails exactly when the input has too few |
| InflateMachine.State.DecodeSymbol | src/common/inflate.c:158-199 | returns the symbol whose canonical code stands at the bit position and moves past exactly it; truncated or bad code otherwise |
| InflateMachine.State.Stored | src/common/inflate.c:201-244 | a stored block: alignment, LEN against its complement, the bytes, and each failure |
| InflateMachine.State.CopyMatch | src/common/inflate.c:303-326 | the byte-by-byte copy appends the periodic extension of the last distance bytes, also when it overlaps itself |
| InflateMachine.State.ReadToken | src/common/inflate.c:256-302 | one literal, end of block or match with its extra bits, or the failure the format gives |
| InflateMachine.State.Codes | src/common/inflate.c:246-328 | the data of a block refines the block decoder of section 3.2.3 of RFC 1951; every write is inside the output |
| InflateMachine.State.Fixed | src/common/inflate.c:330-363 | the fixed tables build, and the block is decoded with them |
| InflateMachine.State.ReadLengths | src/common/inflate.c:431-464 | the length sequence with its repeats, or the failure |
| InflateMachine.State.Dynamic | src/common/inflate.c:365-482 | a dynamic block from its header on, with every way it can be refused |
| InflateMachine.InflateWithState | src/common/inflate.c:484-538 | with room for everything the stream decodes to, status and bytes are exactly the decoder's; otherwise OUTPUT_FULL with a prefix; it terminates because the remaining bits decrease |
| InflateSpec.FixedCodesComplete | src/common/inflate.c:330-363 | both fixed codes are complete |
| InflateTheorems.TrailingBytesIgnored | src/common/inflate.c:484-538 | what follows the final block changes nothing |
| InflateTheorems.CodeFits | src/common/inflate.c:103-156 | in every accepted set each symbol's canonical code fits its length |
| InflateTheorems.SymbolRoundTrip | src/common/inflate.c:103-199 | for every accepted set, writing a symbol's canonical code and decoding it returns the symbol and uses exactly its bits |
| InflateTheorems.ItemsRoundTrip | src/common/inflate.c:246-328 | every list of literals and copies written with two accepted codes decodes to the bytes it stands for |
| InflateTheorems.FixedStreamRoundTrip | src/common/inflate.c:484-538 | a whole stream of one final fixed block decodes to the bytes its items stand for |
| InflateStreams.LengthRanges | src/common/inflate.c:32-42 | the ranges of the length codes follow one another from 3 to 258, with extra bits by rule |
| InflateStreams.DistanceRanges | src/common/inflate.c:45-56 | the ranges of the distance codes follow one another from 1 to 32768, with extra bits by rule |
| InflateStreams.OrderIs | src/common/inflate.c:58-62 | the code length code lengths come in the order 16, 17, 18, 0, then 8+k and 7-k in turn, every symbol once |
| InflateStreams.FixedCodes | src/common/inflate.c:330-363 | every fixed literal/length code is the one section 3.2.6 of RFC 1951 tabulates |
| InflateStreams.FixedDistances | src/common/inflate.c:345-352 | the fixed distance codes are the five-bit numbers 0 to 31 |
| InflateStreams.LengthsRead | src/common/inflate.c:422-464 | code lengths in any spelling (single, the one before 3 to 6 times, zero 3 to 138 times) read back as the lengths spelled |
| InflateStreams.OneByOneOk | src/common/inflate.c:365-482 | every two codes a block may have can be spelled in a header |
| InflateStreams.DynamicStreamRoundTrip | src/common/inflate.c:484-538 | a whole stream of one final dynamic block, with any two accepted codes in any spelling, decodes to the bytes its items stand for |
| InflateStreams.StoredReads | src/common/inflate.c:201-244 | a stored block behind any padding reads back as its bytes |
| InflateStreams.StreamRoundTrip | src/common/inflate.c:484-538 | a stream of any number of stored, fixed and dynamic blocks, the last marked final, decodes to exactly the bytes of its blocks and ends behind its last bit |
| ShotPlan.ResolvePlan | src/common/shotxf.c:69-104 | accepts exactly the known requests that ask for some position of the screen, as the host does; the plan's region is exactly the positions asked for, all of them without a rectangle, and each output side is the least n of at least 1 with 100 n >= side * scale; no 32-bit word overflows |
| ShotPlan.PlannedFits | mcp/v9x_mcp.py:852-870 | a plan's region lies on the screen and its output is no larger than the region |
| ShotPlan.PlanServes | mcp/v9x_mcp.py:852-870 | the host plans exactly the requests that ask for some position, and its region and output sides are those asked for |
| ShotPlan.ServesUnique | mcp/v9x_mcp.py:852-870 | only one plan serves a request |
| ShotPlan.BoxNonEmpty | src/common/shotxf.c:147-170 | the widening of an empty box never fires for a resolved plan |
| ShotPlan.BoxesTile | src/common/shotxf.c:147-170 | every source position is in exactly one box |
| ShotPlan.BoxesEven | src/common/shotxf.c:147-170 | the sides of the boxes differ by one at most |
| ShotImage.FullScaleIsCrop | mcp/v9x_mcp.py:873-896 | at full scale a shaped pixel is the source pixel of the region |
| ShotImage.MeanBound | src/common/shotxf.c:172-188 | every rounded mean fits a byte |
| ShotImage.MeanNearest | src/common/shotxf.c:172-188 | the rounded mean is the nearest byte to the exact one |
| ShotImage.GrayIsLuma | src/common/shotxf.c:222-228 | grey is within 1.2 levels of the luma of ITU-R BT.601, and neutral colours keep their level |
| ShotResample.SumFits | src/common/shotxf.c:147-190 | no sum over a box overflows 32 bits for screens up to 4096 by 4096 |
| ShotResample.PixelMeans | src/common/shotxf.c:147-190 | one output pixel is the host's mean of the same box |
| ShotResample.Resample | src/common/shotxf.c:146-190 | the 24-bit file decodes to exactly the image the host shapes from the decoded capture |
| ShotBmp.BmpHeader | src/common/shotxf.c:122-144 | all header fields, and nothing behind the header changed |
| ShotBmp.Decode8Is | mcp/v9x_mcp.py:765-849 | an 8-bit file decodes to the palette colours of its index rows |
| ShotPalette.EmptyAhead | src/common/shotxf.c:216-236 | with at most 256 of 1024 slots in use a probe always meets an empty one |
| ShotPalette.InsertKeeps | src/common/shotxf.c:216-240 | storing a new colour where its probe ended keeps every stored colour reachable |
| ShotPalette.Work.Intern | src/common/shotxf.c:213-245 | returns an entry with exactly the pixel's colour; fails exactly for a new colour with 256 held |
| ShotIndex.IndexPixel | src/common/shotxf.c:205-250 | one pixel is indexed to an entry with its colour, earlier ones staying as they were |
| ShotIndex.IndexCompact | src/common/shotxf.c:192-255 | returns 0 exactly when the image has more than 256 colours, else the number of distinct colours, every pixel indexed to its own colour |
| ShotIndex.DistinctSize | src/common/shotxf.c:192-255 | a palette without duplicates has as many entries as colours |
| ShotIndex.IndexGray | src/common/shotxf.c:192-212 | grey indices with the grey palette show the greyed image |
| ShotRle8.TokenDecodes | src/common/shotxf.c:257-304 | no token reads as an escape, a delta or another length, and padding keeps the next token aligned |
| ShotRle8.Rle8RoundTrip | src/common/shotxf.c:257-304 | the encoding of any rows decodes back to exactly those rows |
| ShotRle8.Rle8 | src/common/shotxf.c:257-304 | writes the whole encoding when it fits and returns 0 exactly when it does not |
| ShotApply.SourceDecodes | src/common/shotxf.c:306-345 | every capture the agent accepts is one the host decodes, to the same pixels |
| ShotApply.GrayLast | mcp/v9x_mcp.py:873-896 | greying the shaped image is shaping in grey |
| ShotApply.RawRows | src/common/shotxf.c:378-386 | the raw 8-bit rows with their padding read back as the index rows |
| ShotApply.Pack | src/common/shotxf.c:364-388 | the 8-bit file decodes to the image and is RLE8 exactly when that is smaller |
| ShotApply.Apply | src/common/shotxf.c:306-391 | each refusal exactly when its condition holds; otherwise the planned region and size are those the request asks for, and decoding the result gives exactly what the host shapes from the decoded capture there, whichever form was written |
| ShotHost.DecodeRle8 | mcp/v9x_mcp.py:815-842 | the host's loop computes the RLE8 decoding used above |
| ShotHost.Shape | mcp/v9x_mcp.py:873-896 | the host's loops compute the shaped image used above |
| ShotHost.FullScaleIsLossless | src/common/shotxf.c:306-391 | at scale 100 without grey the result shows every screen position asked for and no other, each with its own colour at its own place |
| RelayText.MachineValid | src/common/relay.c:27-49 | accepts exactly M- and six Crockford characters, reading no further than the terminator |
| RelayText.HexIdValid | src/common/relay.c:51-66 | accepts exactly 32 lower-case hex digits |
| RelayText.InstallValid | src/common/relay.c:68-89 | accepts exactly the 8-4-4-4-12 form |
| RelayText.Message | src/common/relay.c:110-166 | builds the canonical text exactly for well-formed names; it always fits 256 characters with its terminator |
| RelayText.WriteNumber | src/common/relay.c:136-143 | the digits in the back of the buffer are the number in decimal |
| RelayText.DecimalRoundTrip | src/common/relay.c:136-143 | a number is determined by its decimal text |
| RelayText.TextInjective | src/common/relay.c:110-166 | the canonical text determines machine, install id, nonce, session, sequence number and digest |
| RelayRecord.RelayNext | src/common/relay.c:168-199 | the reader takes exactly the record at the offset, or reports the end or a malformed batch |
| RelayRecord.NextIff | src/common/relay.c:168-199 | a record is found exactly where its encoding stands |
| RelayRecord.ReadOfEncode | tools/v9xsign.c:354-388 | a batch of written records reads back as those records |
| RelayRecord.EncodeOfRead | src/common/relay.c:168-199 | only the encoding of a record list reads as that list |
| RelayRecord.ChunksJoin | tools/v9xsign.c:354-358 | the chunks of a file are the file |
| RelayRecord.SignRelay | tools/v9xsign.c:320-388 | one signed record per chunk, numbered from the first number on; refuses a first number of zero and malformed names, nothing else |
| RelayAgent.RelayVerify | src/common/relay.c:201-218 | verifies the signature over the canonical text of this session and this data |
| RelayAgent.AgentSession.HandleDown | src/guest/remote.c:777-810 | one answer is handled as the step function of the run theorem: no news, session over, or a batch fed record by record |
| RelayAgent.DownExtends | src/guest/remote.c:777-810 | what was fed stays fed |
| RelayAgent.HonestDelivery | src/guest/remote.c:777-810 | an honestly delivered batch feeds exactly the data it carries |
| RelayRuns.AcceptedIsSigned | src/guest/remote.c:790-806 | an accepted record is a chunk the operator released under the number wanted, unless its text was never signed for it or a hash collided |
| RelayRuns.AcceptedIsNext | src/guest/remote.c:790-806 | while every number was used once it is the very chunk of that number |
| RelayRuns.StepKeeps | mcp/v9x_relay.py:200-250 | every write, flush and delivery keeps the session invariant |
| RelayRuns.FedIsPrefix | src/guest/remote.c:762-810 | in every run, whatever the server drops, repeats, reorders or invents, the bytes fed are a prefix of what the operator wrote, if the operator signs nothing more after a flush that raised before its number moved on |
| RelayResign.BreaksIff | mcp/v9x_relay.py:205-250 | signing on after a flush that failed at the signer or at a post: some course of the server makes the agent feed what is no start of the stream, with nothing forged, exactly when the session is open and the stream does not survive |
| RelayResign.SurvivesShort | mcp/v9x_relay.py:205-250 | after a failed signer, and for batches of one chunk, the stream survives exactly when the new bytes begin the lost ones followed by them |
| RelayResign.LongBatch | mcp/v9x_relay.py:237-247 | for longer batches that is not enough: an input where the new bytes begin so and the stream breaks |
| RelayResign.ReuseBreaksThePrefix | mcp/v9x_relay.py:205-250 | a run for either failure in which the stream breaks, with nothing forged |
| RelaySession.RelaySession.Flush | mcp/v9x_relay.py:205-250 | what is pending is signed under the next numbers and posted; exactly which outcome arises, which posts were taken and what is left |
| RelaySession.PostsJoin | mcp/v9x_relay.py:237-247 | the posts of a batch, four records at most, are together the batch |
| RelaySession.PostEnd | mcp/v9x_relay.py:238-244 | a post never splits a record |
| RelaySession.PostsDeliver | mcp/v9x_relay.py:234-250 | the posts of one flush, delivered whole, feed the agent exactly what was pending |
| RelaySession.RelaySession.Pull | mcp/v9x_relay.py:252-277 | one reply is read into the inbox as specified, with each way it can fail |
| RelaySession.UpArrives | mcp/v9x_relay.py:258-269 | records under consecutive numbers, the first perhaps received before, are read to the end, and every one not received yet is taken in order |
| RelaySession.PullFaithful | mcp/v9x_relay.py:258-268 | repeated, reordered or missing records never change the order of what is received |
| RelaySession.RelaySession.Recv | mcp/v9x_relay.py:179-189 | flushes first and raises when that does; then ends exactly as the wait over the replies does, hands out the first count bytes and keeps the rest; with genuine replies the caller reads exactly the agent's posts, in order |
| RelaySession.WaitBrings | mcp/v9x_relay.py:179-189 | after any number of quiet replies, one with new posts that are not all empty ends the wait with exactly those |
| Sha512Constants.KMeetsItsDefinition | src/common/sha512.c:17-58 | all 80 round constants are the fractional bits of the cube roots of the primes they belong to |
| Sha512Constants.HMeetsItsDefinition | src/common/sha512.c:60-67 | the initial value is the fractional bits of the square roots |
| Sha512Words.AddJoin | src/common/sha512.c:74-87 | addition on halves with the hand-made carry is addition mod 2^64 |
| Sha512Words.CarryIs | src/common/sha512.c:74-87 | the low sum is below an addend exactly when it wrapped |
| Sha512Words.RotrJoin | src/common/sha512.c:89-112 | rotation on halves is rotation of the word for every amount but 0 and 32 |
| Sha512Words.ShrJoin | src/common/sha512.c:114-123 | the shift on halves is the shift of the word |
| Sha512Words.SigmaJoin | src/common/sha512.c:160-182 | the four sigma functions on halves are the standard's |
| Sha512.LoadJoin | src/common/sha512.c:184-209 | two big-endian loads make the message word |
| Sha512.MakeSchedule | src/common/sha512.c:202-211 | the schedule array holds the standard's message schedule |
| Sha512.RoundStep | src/common/sha512.c:219-237 | one round in place is the standard's round |
| Sha512.Block | src/common/sha512.c:191-247 | one block is compressed as section 6.4.2 of FIPS 180-4 says |
| Sha512.CountStep | src/common/sha512.c:270-273 | the two count words are the byte count mod 2^64 after every update |
| Sha512.Context.Update | src/common/sha512.c:261-283 | absorbs exactly the data, for any cut into calls |
| Sha512.CountField | src/common/sha512.c:291-316 | the three count words behind four zero bytes are the 128-bit length in bits |
| Sha512.Context.Final | src/common/sha512.c:285-327 | the padded message's digest: the standard's for every message of fewer than 2^64 bytes |
| Sha512.HashParts | src/common/sha512.c:249-327 | however a message is cut into updates, the digest is that of the whole |
| FileStore.Disk.PromoteTemp | src/guest/files.c:140-176 | at every moment of a promotion the old contents are at the target or the backup, or the new ones are at the target; no other file changes |
| FileStore.PromotedOutcome | src/guest/files.c:140-176 | after success the target is the new file; after failure with a working rollback it is as before |
| FileStore.TempLeftBehind | src/guest/files.c:140-176 | the temp file stays behind exactly when the promotion fails and its deletion fails too |
| FileStore.TempNotConsumed | src/guest/files.c:140-144 | a store and a failure of the system where it does |
| UploadAgent.CrcJoin | src/guest/files.c:417-418 | the running CRC of two pieces is the CRC of both |
| UploadAgent.WriteState.HandleOpenWrite | src/guest/files.c:347-388 | an upload starts, or is refused: busy, path not carried, too large, temp file not created |
| UploadAgent.WriteState.HandleWriteChunk | src/guest/files.c:390-423 | a chunk is accepted only at the received offset and within the declared size; a failed write may leave bytes behind |
| UploadAgent.WriteState.HandleCommit | src/guest/files.c:425-471 | a commit with a payload is refused; any other promotes or refuses as specified and ends the upload |
| UploadAgent.ChunkKeeps | src/guest/files.c:390-423 | under any client the counters and the running CRC describe the bytes acknowledged |
| UploadAgent.CommitConfirms | src/guest/files.c:425-471 | completion is confirmed only when size and CRC of the acknowledged bytes match; the target is those bytes exactly when no failed write had left any |
| UploadAgent.CommitIff | src/guest/files.c:425-471 | completion is confirmed exactly when flush, size, CRC and the renames allow it |
| UploadAgent.RetryAfterShortWriteCorrupts | src/guest/files.c:411-420 | a repeated chunk after a short failed write is confirmed with a file that is not what was acknowledged |
| UploadClient.GoKeeps | mcp/v9x_mcp.py:1317-1330 | the client never has more than a window in flight and waits for an acknowledgement only with a chunk in flight |
| UploadClient.PutStream.Run | mcp/v9x_mcp.py:1305-1340 | the client's loops are the step machine of the run theorems, against any replies |
| UploadRun.StepKeeps | mcp/v9x_mcp.py:1317-1340 | every step of client, channel and agent keeps the joint invariant |
| UploadTheorems.InFlightMatches | mcp/v9x_mcp.py:1317-1335 | outstanding requests and replies match the chunks in flight in order and never exceed the window; nothing but the temp file is touched |
| UploadTheorems.TempIsPrefix | src/guest/files.c:390-423 | in every reachable state the temp file is the received start of the data, unless a failed write left bytes |
| UploadTheorems.DoneMeansInPlace | mcp/v9x_mcp.py:1336-1340 | when the client reports success the target holds the data and the CRC is the data's |
| UploadTheorems.NeverStuck | mcp/v9x_mcp.py:1317-1340 | no reachable state is stuck |
| UploadTheorems.StepShrinks | mcp/v9x_mcp.py:1317-1340 | every run is finite |
| UploadTheorems.GoodRunSucceeds | mcp/v9x_mcp.py:1288-1340 | with nothing failing on either machine every complete run ends in success |
| TextLines.SplitJoins | src/common/textscan.c:72-90 | the lines, each with its LF, and the rest are the stream |
| TextLines.SplitUnique | src/common/textscan.c:72-90 | the lines of a stream are the only way to cut it at its LFs |
| TextLines.KeptWhole | src/common/textscan.c:45-51 | a line keeps its whole text exactly when it has at most 1024 bytes, or 1025 of which the last is CR and the one before is not |
| TextLines.KeptPrefix | src/common/textscan.c:45-51 | what is kept is the start of the line, ended early only by the limit or a CR |
| TextLines.FlaggedWhole | src/common/textscan.c:45-85 | 1024 letters and CR LF: flagged as cut with nothing lost |
| TextScan.FlagMeans | src/common/textscan.c:45-85 | lost text is always flagged; the flag is raised without loss exactly when every over-long line is over by its CR alone |
| TextLines.FittingUnique | src/common/textscan.c:54-65 | the number of lines emitted is the only one at which the next no longer fits |
| TextScan.Scan.Matches | src/common/textscan.c:29-43 | finds the text wherever it stands in the line, letters of either case alike |
| TextLines.LowerMeans | src/common/textscan.c:24-27 | letters compare alike in either case and nothing else does |
| TextScan.Scan.LineDone | src/common/textscan.c:45-70 | a complete line is counted, flagged, matched and emitted as specified, the output never past its capacity |
| TextScan.Scan.Feed | src/common/textscan.c:72-85 | feeding pieces is feeding the stream, however it is cut |
| TextScan.Scan.End | src/common/textscan.c:87-90 | a last line without LF counts if it holds anything |
| TextScan.CountPass | src/guest/tools.c:395-401 | the first pass yields how many matching lines to skip |
| TextScan.HandleReadText | src/guest/tools.c:332-415 | the answer is exactly the size, the counts and the last matching lines, CR stripped, cut at 1024 bytes, LF appended, up to the first that does not fit; each flag exactly when it applies; failure exactly when a reading fails or the file is too large |
| MdnsWire.DottedSplit | src/common/mdns.c:168-183 | splitting a dotted name at its dots loses nothing |
| MdnsWriter.Writer.PutName | src/common/mdns.c:168-183 | a name is written label by label; a label that cannot be written fails the response |
| MdnsWriter.Writer.PutRecord | src/common/mdns.c:192-269 | a record with every field, its length patched in behind |
| MdnsWriter.Writer.Emit | src/common/mdns.c:271-288 | the records of a set in the fixed order, and their number |
| MdnsWriter.BuildResponse | src/common/mdns.c:290-323 | 0 exactly when nothing is wanted, a label cannot be written or the response does not fit; otherwise exactly the response |
| MdnsReader.ReadName | src/common/mdns.c:49-81 | reads the names the host reads, exactly as long as the dotted text fits its buffer, and terminates on any packet |
| MdnsReader.MdnsReadName | mcp/v9x_mcp.py:547-572 | the host's reader, terminating on any packet by jumps and bytes left |
| MdnsReader.ParseMdnsPacket | mcp/v9x_mcp.py:575-630 | the host's loops compute the packet parser used below |
| MdnsTheorems.NameReads | src/common/mdns.c:168-183 | a written name reads back as its labels |
| MdnsTheorems.CompressedReads | src/common/mdns.c:51-81 | a name of labels and pointers reads back as all its labels and ends behind its first pointer; it is refused exactly when it follows more than sixteen |
| MdnsTheorems.TextsRead | src/common/mdns.c:247-257 | TXT strings read back: cut at 255 bytes, the empty ones dropped |
| MdnsTheorems.RecordReads | src/common/mdns.c:192-269 | a written record reads back with every field |
| MdnsTheorems.ResponseParses | src/common/mdns.c:290-323 | every response parses into exactly its answers and then its additionals, with id, counts, TTLs and data |
| MdnsTheorems.NothingTwice | src/common/mdns.c:290-302 | the answers are the wanted kinds, and answers and additionals together hold each kind at most once |
| MdnsTheorems.ResolvesItself | src/common/mdns.c:300-306 | every response that names the service holds its SRV and TXT records, every one with an SRV holds the address of its host, and nothing else is added |
| IniRepair.IniIsKey | src/common/installid.c:100-116 | true exactly for the key, in either case and between blanks, before an equals sign |
| IniRepair.Repair | src/common/installid.c:118-164 | writes the repaired text, and fails exactly when that does not fit |
| IniRepair.RepairedLines | src/common/installid.c:118-164 | the repaired lines are clean and are the kept lines in order, blank lines aside |
| IniRepair.UniqueMeans | src/common/installid.c:144-150 | between two lines that set the key a section opens |
| IniRepair.SeenMeans | src/common/installid.c:144-150 | a key line is dropped exactly when its section has set the key before |
| IniRepair.CleanUnchanged | src/common/installid.c:118-164 | a clean image comes out byte for byte the same |
| IniRepair.RepairIdempotent | src/common/installid.c:118-164 | repairing twice is repairing once |
| IniRepair.RepairFits | src/common/installid.c:151-152 | the repaired text never exceeds twice the input and two bytes |

## Left out

- Completeness of Ed25519 sign-then-verify and associativity of the group: they need that p is prime and the group theory of the curve. `v9x_ed25519_sign`, `_verify`, `_expand_seed` and `_challenge` only combine what is proved.
- Ed25519Field.FeInvert: states a^(p-2) mod p; that this is an inverse is Fermat's theorem for p, which is not proved but named as a hypothesis where a result needs it (Ed25519Roots).
- EdwardsPoints.LadderIsMultiple: says what the ladder computes for every count the formulas respect; that the points of the curve have such counts is the group law, which is not proved.
- EdwardsPoints.DoubleIsAdd: states equality up to the factor -4 in every coordinate, which is how the formulas differ.
- Bit operators on disjoint bits (`|`, `<<`, `>>`, `& 0xFF`) are sums, products, quotients and remainders of the same values in the field, Deflate, screenshot and record code; in SHA-512 they are operations on strings of bits.
- Null-pointer arguments and the status codes for them.
- Long C functions are split into several methods that run one after another; the table names each with the lines it covers.
- ShotApply.Apply: the work buffer is four arrays (palette, keys, values, indices) instead of one cut by offsets, so that they do not overlap is given rather than computed.
- The host's image is rows of pixels; Python's row bytes are those pixels' channels.
- The PNG writer, the request codec and the capture itself.
- RelayRuns.FedIsPrefix: asks for fewer than 2^32 - 1 signed chunks, beyond which the 32-bit sequence number of records repeats. A signer that fails lets nothing out.
- RelayResign.BreaksIff: the first flush that fails in a session, and the one after it; a hash that tells the released chunks apart.
- RelayAgent.AgentSession.HandleDown: the HTTP call itself, the up direction's retries, the heartbeat and the pause flag are not modelled; they only end a session.
- RelaySession.RelaySession.Recv: the deadline is the end of the list of replies.
- SHA-256 and the key file; the nonce's freshness is a condition on what the key has signed elsewhere.
- UploadRun.StepKeeps: one connection, so no other writer of the same paths; paths are compared as given, not case-insensitively; CRC-32 is any fold over bytes.
- UploadClient.PutStream.Run: both passes over the local file read the same bytes; a local read may return fewer than asked for.
- UploadAgent.WriteState.HandleOpenWrite: size, CRC and path are taken out of the request payload already; a create that fails is reported as one status.
- TextScan.HandleReadText: match text, path and numbers are taken out of the request payload already; a file that changes between the passes gets the second pass's lines after the first pass's skip.
- MdnsWriter.BuildResponse: the set of wanted records is a set, not a bit mask; bits outside the mask are ignored by the original.
- MdnsReader.ParseMdnsPacket: the dotted form of an address and the hex form of unknown data stay bytes.
- v9x_mdns_parse_query and the folding of several replies into agents.
- The sockets, HTTP, registry, tray, input, process and power code, the exec pool, the inventory, the version and URL parsers, zip reading and the DOS agent.
