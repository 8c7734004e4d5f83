# Bounded archive readers

unpackrat reads game archives without trusting them. Most of its readers pair a streaming, seekable or
cached form with a simple meaning over whole buffers, and this project proves that the two agree. Byte
sources are sequences, thrown exceptions are failure results, and an object that has failed is not
used again.

* `BinaryResource`, `BinaryResourceReader`: what a parse of a resource means, and its mutable form with a
  cursor and budgets; `Utf8` is the string validator. `BinaryResourceModes`, `BinaryResourcePayloads`,
  `BinaryResourceWitness`: the two modes of the parser are one parse. The metadata tree is the full tree
  cut to 64-byte prefixes, it locates every payload in the input, and the condition under which only one
  of the two succeeds is exact. `BinaryResourceWire`, `BinaryResourceFile`: resources written out from the
  wire format, without the reader's functions; `BinaryResourcePrinted`, `BinaryResourceParsed`: parsing
  them gives them back. `BinaryResourceClean`: what holds of everything that is accepted.
* `FastLz`, `FastLzStream`, `FastLzChecker`, `Rscc`: the resumable FastLZ block decoder against a pure
  token grammar, the input checker against the same grammar, and random access to a compressed
  resource against decompressing all of it. `FastLzPack`, `RsccPack`: blocks and streams packed from the
  wire format, what both readers make of them, and that nothing else is accepted.
* `Cfb`, `EncryptedPayload`: the seekable plaintext view against one linear CFB128 decryption. The AES
  block function and MD5 are any functions. `SealedPayload`: encryption, the envelope an exporter writes,
  and that nothing else verifies.
* `TreePlan`, `TreeCost`, `VirtualTree`, `Placement`, `Placer`, `Manifest`, `Decimal`: the plan of a
  presentation tree, the one tree that completes it and what that tree costs, its collision-free names,
  the memo of the name search, and the generated name map. `TreeNames`, `TreeListings`: the name of every
  entry spelt out by positions, and the listings read back.
* `Ogg`, `OggWriter`: the page writer against a demultiplexer written from RFC 3533, section 6.
* `PickleValues`, `Pickle`, `PickleReader`, `PickleDump`, `PickleScript`: incrementally cached depths
  against fresh measurement, the virtual machine against a reference machine, the exact nesting
  boundary, and scripts that use every instruction and the memo.
* `RpgMaker`, `RpgMakerWire`: the legacy archive reader and its encoder, each the other's inverse, and the
  archive laid out by the steps of the key.
* `Mips`, `BlockImages`, `BlockGrid`, `RawImageWriter`, `Ima`, `ImaTrack`: two mip-size computations,
  images written row by row from strips of blocks or from plain elements, and chunked IMA ADPCM.

Where a comment in the repository says more than its code, the code is followed. The FastLZ checker
demands one byte more after a far match than the stream decoder does, so the two accept different
blocks; `FastLzChecker.CheckedBlocksStream` says exactly when they part. A block decoder's random
access also depends on a limit that whole-stream decompression does not check;
`Rscc.RandomAccessAgrees` gives the condition. A metadata parse fetches payload prefixes
through a check that the full parse does not make, so a string bound below 64 bytes can fail it alone;
`BinaryResourceModes.MetadataIsFullParse` says exactly when, and
`BinaryResourceWitness.ShortBoundWitness` exhibits it for each such bound.

## Model

| member | source | states |
|---|---|---|
| BinaryResourceModes.MetadataIsFullParse | src/core/godot/binary_resource.cpp:1257-1266 | Where the full parse succeeds, the metadata parse gives the same tree cut to 64-byte prefixes exactly when the widest payload prefix is within the string bound, and otherwise refuses to fetch it; where the metadata parse succeeds, the full one can fail on the allocation budget alone |
| BinaryResourceWitness.ShortBoundWitness | src/core/godot/binary_resource.cpp:748-760 | One resource that, under every string bound from 2 to 63, the full parse reads and the metadata parse refuses |
| BinaryResourcePayloads.MetadataLosesNothing | src/core/godot/binary_resource.cpp:748-763 | The metadata tree and the input give the full tree: offsets and lengths locate every payload |
| BinaryResourcePayloads.FullParseIsWhole | src/core/godot/binary_resource.cpp:748-763 | In the full mode every payload is the input's bytes at its offset, and no prefix in the tree passes the widest one |
| BinaryResourceModes.ValueAgrees | src/core/godot/binary_resource.cpp:1059-1069 | At every depth the two modes read the same value, cut, and stand at the same position with the same node count, or the value holds a prefix wider than the string bound and the metadata mode refuses it |
| BinaryResourceModes.BodyAgrees | src/core/godot/binary_resource.cpp:748-763 | Helper fact: fetching 64 bytes and skipping the rest ends where fetching everything ends, and is refused exactly when the prefix is wider than the string bound |
| BinaryResourceModes.ImageAgrees | src/core/godot/binary_resource.cpp:897-932 | The two modes read the same embedded image, cut, under the same condition |
| BinaryResourceModes.DictionaryAgrees | src/core/godot/binary_resource.cpp:1005-1057 | The two modes read the same dictionary, and reject the same duplicate names |
| BinaryResourceModes.AllRecordsAgree | src/core/godot/binary_resource.cpp:1226-1255 | The two modes read the same records and legacy ids |
| BinaryResourceParsed.WrittenFileParses | src/core/godot/binary_resource.cpp:1257-1266 | A resource file written out from the wire format, for any engine version, byte order, real width, tables, ids, references and values, parses to exactly the resource it stands for |
| BinaryResourcePrinted.ValueReads | src/core/godot/binary_resource.cpp:1059-1069 | A value of any kind written out from the wire format, in either byte order, reads as what it stands for, and the reader then stands behind it having counted its nodes and charged its cost |
| BinaryResourcePrinted.LeafReads | src/core/godot/binary_resource.cpp:655-1003 | The same for every kind without children: integers of both widths with their signs, arrays element by element, texts, bytes, references, node paths and images field by field |
| BinaryResourceParsed.HeadReads | src/core/godot/binary_resource.cpp:1071-1144 | A written header reads back field by field, and sets byte order, real width, uids and named ids for what follows |
| BinaryResourceParsed.TablesRead | src/core/godot/binary_resource.cpp:1146-1178 | The written string, external and internal tables read back row by row |
| BinaryResourceParsed.IdsAre | src/core/godot/binary_resource.cpp:1184-1224 | The directory index of each legacy id is the row whose path was written with that id, negative ids wrapped to 32 bits |
| BinaryResourceParsed.RecordsRead | src/core/godot/binary_resource.cpp:1226-1255 | Records written one after the other are each found at the offset their row gives |
| BinaryResourceClean.AcceptedIsClean | src/core/godot/binary_resource.cpp:1257-1266 | In either mode, whatever is accepted has a known engine and format, bounded and well-formed texts free of NUL, references that point into its tables, legacy ids that name the row spelling them, distinct dictionary names, and nothing deeper than the limit |
| FastLzStream.Decoder.Read | src/core/codecs/resource_compression.cpp:660-684 | A read at any offset, with a restart for a backward one, succeeds exactly when every output window it touches decodes (and, at the logical end, the whole block does), and returns that slice of the whole-block decode |
| FastLzPack.PackedDecodes | src/core/codecs/resource_compression.cpp:514-590 | A block packed from literal runs and matches by the wire format (level bits, one-byte or chained counts, near and far distances) decodes to what they mean index by index: a copied byte is the one its distance before it |
| FastLzPack.WholeIsPacked | src/core/codecs/resource_compression.cpp:514-590 | A block decodes whole exactly when it is such a packing of items that mean its output |
| FastLzPack.PackedReads | src/core/codecs/resource_compression.cpp:660-684 | Every read inside the logical bytes of a packed block succeeds, none past them does, and what is read is what the items mean |
| FastLzPack.PackedPasses | src/core/codecs/resource_compression.cpp:77-160 | The input checker accepts a packed block exactly when its last item is not a far match |
| FastLzPack.CopyReads | src/core/codecs/resource_compression.cpp:544-588 | A written match reads as its distance and count, at either level, with one to three operand bytes and a count escape of any length |
| FastLzStream.Decoder.Fill | src/core/codecs/resource_compression.cpp:514-590 | One window further, from any point inside a token; a failure means the whole-block decode breaks within that window, and each success moves forward by a full window or completes |
| FastLzStream.Decoder.Finish | src/core/codecs/resource_compression.cpp:655-659 | Draining the block succeeds exactly when the whole block decodes with every input byte used and the padded size reached |
| FastLzStream.Decoder.Restart | src/core/codecs/resource_compression.cpp:470-480 | A restarted decoder is a valid one at position zero of the same block |
| FastLzStream.Decoder.Refill | src/core/codecs/resource_compression.cpp:481-490 | Refilling the 64 KiB input window changes no unread byte of the block |
| FastLzStream.Decoder.FastByte | src/core/codecs/resource_compression.cpp:495-501 | The next byte of the block, or failure exactly at its end |
| FastLzStream.Decoder.FastEmit | src/core/codecs/resource_compression.cpp:506-513 | Appending a byte keeps the output window and the 73,728-slot ring equal to the last bytes produced |
| FastLzStream.Decoder.ReadMatch | src/core/codecs/resource_compression.cpp:557-588 | The match the grammar reads here; it is refused exactly when the grammar, the history or the padded size refuses it, and it is never longer than what is left |
| FastLzStream.RingSlotsDiffer | src/core/codecs/resource_compression.cpp:402-405 | Two positions less than 73,728 apart never share a ring slot, so the largest distance 73,727 is always in history |
| FastLzStream.Decoder.ProducedIsReadable | src/core/codecs/resource_compression.cpp:660-684 | At every point between reads, what has been produced is a prefix of the whole-block decode and every full window of it is readable |
| FastLzStream.RunStep | src/core/codecs/resource_compression.cpp:531-541 | Emitting one literal byte does not change what the rest of the block decodes to |
| FastLzStream.CopyStep | src/core/codecs/resource_compression.cpp:534-540 | Emitting one byte of an overlapping match does not change what the rest of the block decodes to |
| FastLz.LiteralStep | src/core/codecs/resource_compression.cpp:530-541 | A literal run of the grammar is one byte and then a shorter run |
| FastLzChecker.RequireCompleteInput | src/core/codecs/resource_compression.cpp:77-160 | The input checker accepts exactly the blocks whose tokens use every input byte, stay within the bound and do not end in a level-2 far match |
| FastLzChecker.CheckMatch | src/core/codecs/resource_compression.cpp:102-136 | One match of the checker, with its length escape accumulated under the bound |
| FastLzChecker.DecodesWhole | src/core/codecs/resource_compression.cpp:77-160 | A block decodes whole exactly when its token walk is complete, totals the padded size and keeps every distance inside the output before it |
| FastLzChecker.CheckedBlocksStream | src/core/codecs/resource_compression.cpp:514-590 | A checked block with the right size and distances streams whole; a block that streams whole passes the checker exactly when it does not end in a far match |
| FastLzChecker.SpareByteWitness | src/core/codecs/resource_compression.cpp:128-133 | A block that streams whole and that the checker rejects, because a final far match leaves no spare byte |
| Rscc.DecompressRscc | src/core/godot/rscc.cpp:94-133 | The whole-stream decompression, block after block; it fails exactly where the specification does |
| RsccPack.PackedStreamDecompresses | src/core/godot/rscc.cpp:94-133 | A stream packed from blocks, header, table, blocks and trailing magic, decompresses to their logical bytes |
| RsccPack.AcceptedIsPacked | src/core/godot/rscc.cpp:94-133 | Every stream that decompresses is such a packing, within the limits, of blocks that stand for its output |
| RsccPack.PackedStreamReads | src/core/godot/rscc.cpp:241-262 | Every in-range random read of a packed stream whose blocks the reader admits is that slice of the logical bytes |
| RsccPack.HeaderReads | src/core/godot/rscc.cpp:41-80 | The header fields are the block size and the logical size that were written |
| Rscc.CheckedDecompressBlock | src/core/codecs/resource_compression.cpp:162-222 | One block: budgets, the input checker, the decode, and the padding cut off |
| Rscc.Locate | src/core/godot/rscc.cpp:246-254 | Every logical position below the total lies in the block its quotient names, inside that block's logical bytes |
| Rscc.EmptyTailIsUntouched | src/core/godot/rscc.cpp:246-261 | When the total is a multiple of the block size, no logical position maps to the empty last block |
| Rscc.BlocksCoverTotal | src/core/godot/rscc.cpp:77-77 | The logical sizes of the blocks add up to the total |
| Rscc.RandomAccessAgrees | src/core/godot/rscc.cpp:94-262 | For every stream that decompresses, every in-range random read returns that slice of the output exactly when the first block fits the reader's block limit |
| Rscc.AcceptedReads | src/core/godot/rscc.cpp:241-262 | Reads of an accepted stream, piece by piece, are slices of the whole output |
| Rscc.Reader.Open | src/core/godot/rscc.cpp:140-194 | The random-access reader opens exactly the streams whose header is valid and whose table accounts for every stored byte |
| Rscc.Reader.AccountTable | src/core/godot/rscc.cpp:170-192 | Adding up the table in batches reaches the trailing magic exactly |
| Rscc.Reader.Load | src/core/godot/rscc.cpp:196-239 | Moving the cursor, forward or from a reset, streams the block that was asked for, and the offset stays the sum of the sizes before it |
| Rscc.Reader.Read | src/core/godot/rscc.cpp:241-262 | Any sequence of reads, through the cached block, returns what the stateless specification names or fails where it does |
| Rscc.Reader.ValidateTerminalBlock | src/core/godot/rscc.cpp:263-275 | The empty tail block of an exact multiple is validated exactly when it decodes whole |
| Cfb.DecryptAt | src/core/codecs/crypto_codec.cpp:157-182 | Byte i of a CFB128 decryption is ciphertext byte i under the cipher of the preceding ciphertext block (NIST SP 800-38A, section 6.3) |
| Cfb.DecryptBit | src/core/codecs/crypto_codec.cpp:171-182 | Bit by bit: a plaintext bit is set exactly when the ciphertext bit differs from that bit of the encrypted preceding ciphertext block |
| Bytes.XorBit | src/core/codecs/crypto_codec.cpp:171-182 | A bit of an exclusive or is set exactly when the two bits differ |
| SealedPayload.SealedReads | src/core/godot/encrypted_payload.cpp:28-64 | A member sealed as an exporter writes it, anywhere in a stream, is recognised with its length, digest and IV, and its linear decryption is the plaintext that was sealed |
| SealedPayload.VerifiedIsSealed | src/core/godot/encrypted_payload.cpp:96-122 | An envelope whose linear plaintext has the digest it names is byte for byte a sealed one |
| SealedPayload.DecryptEncrypted | src/core/codecs/crypto_codec.cpp:157-182 | Decryption undoes CFB128 encryption, for every length (NIST SP 800-38A, section 6.3) |
| Cfb.UpdateAdvances | src/core/codecs/crypto_codec.cpp:171-182 | An update anywhere in a segment yields the next bytes of the linear decryption and stands behind them |
| Cfb.UpdateConcat | src/core/codecs/crypto_codec.cpp:171-182 | Two updates are one update of the joined input |
| Cfb.Aes256Cfb128.Reset | src/core/codecs/crypto_codec.cpp:150-155 | A reset starts a fresh operation from the given IV, applied before the next byte |
| Cfb.Aes256Cfb128.Decrypt | src/core/codecs/crypto_codec.cpp:157-182 | Decryption in 4096-byte updates equals one update, and carries the feedback over |
| EncryptedPayload.EnvelopeIsExact | src/core/godot/encrypted_payload.cpp:28-64 | An envelope that was read names whole cipher blocks of the stream, and reading its own range again gives it back |
| EncryptedPayload.View.Verify | src/core/godot/encrypted_payload.cpp:96-122 | The view is verified exactly when the digest of the linear plaintext, cut to its logical length, matches |
| EncryptedPayload.View.RestartCipher | src/core/godot/encrypted_payload.cpp:129-137 | A restart at the enclosing block boundary stands where the linear decryption stands |
| EncryptedPayload.View.Fill | src/core/godot/encrypted_payload.cpp:124-147 | A refill, sequential or restarted, leaves a get area of linear plaintext at an unchanged read position |
| EncryptedPayload.View.Underflow | src/core/godot/encrypted_payload.cpp:149-156 | The byte at the read position of the linear plaintext, or the end |
| EncryptedPayload.View.Bump | src/core/godot/encrypted_payload.cpp:149-156 | One byte read, from the get area or behind a refill, is the linear plaintext's at the read position, which then moves by one, and never past the end |
| EncryptedPayload.View.Xsgetn | src/core/godot/encrypted_payload.cpp:158-176 | A read of any length, after any reads and seeks, returns the linear plaintext slice at the read position and moves past it |
| EncryptedPayload.View.Seekoff | src/core/godot/encrypted_payload.cpp:178-207 | A seek moves to the position exactly when it is in range and for input, inside or outside the buffer; otherwise nothing changes |
| Placement.CandidateOfKey | src/modules/godot/virtual_tree.cpp:274-282 | Folding a suffixed name is suffixing the folded name |
| Placement.CandidatesDiffer | src/modules/godot/virtual_tree.cpp:274-282 | Different suffixes of one base never fold to the same name |
| Placement.CandidateKeepsAncestors | src/modules/godot/virtual_tree.cpp:274-282 | A suffix changes the last component only: the directories stay the same |
| Placement.FitsOfKey | src/modules/godot/virtual_tree.cpp:403-421 | The path limits see a name and its folding alike |
| Placement.TakenCandidatesAreFew | src/modules/godot/virtual_tree.cpp:477-511 | If the first n candidates are all taken then at least n names are taken, so the search ends |
| Placement.ScanIsDeterministic | src/modules/godot/virtual_tree.cpp:484-511 | A scan of base, base~1, ... from zero has one result |
| Placer.Placer.ReserveAncestors | src/modules/godot/virtual_tree.cpp:434-450 | Exactly the folded proper prefixes of the path are reserved |
| Placer.Placer.Select | src/modules/godot/virtual_tree.cpp:484-511 | Starting from the memo finds what a scan from zero finds, and every suffix below a remembered counter stays taken |
| Placer.Placer.Place | src/modules/godot/virtual_tree.cpp:463-474 | The preferred name's first free candidate or, only when that one does not fit, the fallback's; the collision set grows by exactly the placed name |
| Placer.Budget.Charge | src/modules/godot/virtual_tree.cpp:45-51 | A charge succeeds exactly when it fits, and adds exactly its amount |
| Placer.Budget.ReserveSlots | src/modules/godot/virtual_tree.cpp:57-63 | A reservation compared by division succeeds exactly when the product fits |
| VirtualTree.MakeVirtualTree | src/modules/godot/virtual_tree.cpp:534-746 | A tree is returned exactly when its input admits one and that tree's cost is within the metadata budget, and it is then that one tree, entry for entry: distinct folded names that fit and shadow no directory, every file shown (converted exactly when hinted) and no removal, and a map that reads back as the renamed rows. A fault means that no tree is admissible: a bad hint or mapping, too many entries, or a name without room; exhaustion means that an admissible tree costs too much |
| TreeNames.TreeIsNamed | src/modules/godot/virtual_tree.cpp:611-722 | Every entry of a complete tree by what it shows: unhinted files in archive order, then hinted ones, then listings; each row is given the first free candidate of the name it asks for, which is the escaped path of its first mapping (or its own) up to the dot of its last component, the variant behind a dot, and the hint's or the compiled file's extension |
| TreeNames.MappingOfIsFirst | src/modules/godot/virtual_tree.cpp:600-609 | The mapping behind a file is the first one whose normalized compiled path is stored in it |
| TreeNames.CandidateSpelt | src/modules/godot/virtual_tree.cpp:254-282 | A suffixed name is the name up to its extension's dot, a tilde, the number, and the extension |
| TreeNames.HintedFileKeepsItsName | src/modules/godot/virtual_tree.cpp:611-677 | A hinted file no mapping names, whose path escaping leaves alone and which already ends in its extension, keeps its name if that fits and is free, so that the name map has no row for it |
| TreeNames.FreeNameIsGiven | src/modules/godot/virtual_tree.cpp:463-474 | A name that fits and is free is given as it was asked for |
| TreeNames.RenamedIsExact | src/modules/godot/virtual_tree.cpp:699-716 | A row is in the name map exactly when it names an entry shown under another name than its file has |
| TreeListings.RemovalsAreListed | src/modules/godot/virtual_tree.cpp:723-744 | When the archive removes anything, the entry behind the rows reads back as exactly its removal records, in order |
| TreePlan.TreeIsDeterministic | src/modules/godot/virtual_tree.cpp:463-746 | Sources, order, names, texts and the number of listings of a complete tree are all fixed by its plan: two complete trees are equal |
| TreePlan.TreeIsPresentable | src/modules/godot/virtual_tree.cpp:427-474 | The names of a complete tree are distinct when folded, fit, and none is a directory of another |
| TreePlan.TreeIsFaithful | src/modules/godot/virtual_tree.cpp:630-722 | A complete tree shows every file, converted exactly when it is hinted, and shows nothing that is not a file |
| TreePlan.TreeMapsRenames | src/modules/godot/virtual_tree.cpp:701-744 | When a row of a complete tree is renamed, its last entry is a map that reads back as the renamed rows in order |
| TreePlan.TreeSize | src/modules/godot/virtual_tree.cpp:717-744 | A complete tree holds one entry a row and then one for each listing that lists something: removals, when there are any, and the map, when a row is renamed |
| TreeCost.BrokeIsTooDear | src/modules/godot/virtual_tree.cpp:41-69 | Once the charges on the way pass the budget, whichever charge does, every complete tree costs more than the budget |
| TreeCost.RemovalCostIsLength | src/modules/godot/virtual_tree.cpp:723-738 | The size charged for the removal lines, before they are built, is their length |
| TreePlan.StuckHasNoTree | src/modules/godot/virtual_tree.cpp:463-474 | Once the entries so far leave the next row no name or no slot, no complete tree fits the limits |
| TreePlan.RawListFacts | src/modules/godot/virtual_tree.cpp:630-650 | Every file without a hint has a raw row, and nothing else has |
| TreePlan.ConvertedListFacts | src/modules/godot/virtual_tree.cpp:652-677 | Every hinted file has a converted row, from its mappings or under its own name, and nothing else has |
| VirtualTree.Builder.CollectHints | src/modules/godot/virtual_tree.cpp:551-566 | Hints are accepted exactly when each names a file, has a supported extension and contradicts no other |
| VirtualTree.Builder.FirstMapping | src/modules/godot/virtual_tree.cpp:600-609 | The table holds, for each file, the first mapping that names it and nothing else |
| VirtualTree.Builder.RawRows | src/modules/godot/virtual_tree.cpp:630-650 | The raw rows, in archive order, with the names their first mappings restore |
| VirtualTree.Builder.ConvertedRows | src/modules/godot/virtual_tree.cpp:652-677 | The converted rows, unmapped files first and then mapping by mapping |
| VirtualTree.Builder.AppendRow | src/modules/godot/virtual_tree.cpp:699-716 | One row is placed by a plain scan past every directory and earlier name, and a changed name adds exactly its line to the map |
| Manifest.FieldRoundTrip | src/modules/godot/virtual_tree.cpp:354-374 | Percent-decoding an escaped field gives back its bytes, and the field is free of separators and well-formed UTF-8 |
| Manifest.PlainFieldStays | src/modules/godot/virtual_tree.cpp:354-374 | A field of printable ASCII without a percent sign is written as it is |
| Manifest.EscapedFieldSize | src/modules/godot/virtual_tree.cpp:379-388 | The size charged for a field is the size of its escaped form |
| Manifest.WriteField | src/modules/godot/virtual_tree.cpp:358-374 | The loop writes the escaped form |
| Manifest.RowRoundTrip | src/modules/godot/virtual_tree.cpp:708-713 | A row reads back as its index and both its names |
| Manifest.ManifestRoundTrip | src/tests/integration/godot.cpp:85-129 | Splitting on newlines and tabs and percent-decoding recovers exactly the rows, in order |
| Manifest.RowBound | src/modules/godot/virtual_tree.cpp:704-705 | Both field sizes, the digits and three separators are the exact length of a row |
| Decimal.DigitCount | src/modules/godot/virtual_tree.cpp:392-400 | The number of decimal digits, counted by division |
| Decimal.ValueOfDigits | src/modules/godot/virtual_tree.cpp:708-708 | A printed number reads back |
| Utf8.Validate | src/core/godot/binary_resource.cpp:610-653 | The validator accepts exactly the concatenations of encoded Unicode scalar values (RFC 3629, section 4) |
| Utf8.EncodedIsDecoded | src/core/godot/import_remap.cpp:145-164 | Every encoded scalar value reads back |
| Utf8.DecodedIsEncoded | src/core/godot/binary_resource.cpp:613-652 | Every sequence the validator accepts is the encoding of the scalar value it reads |
| Utf8.EncodingIsUnique | src/core/godot/import_remap.cpp:145-164 | No two sequences of scalar values share an encoding |
| OggWriter.WriteOggPaged | src/core/codecs/ogg_codec.cpp:179-277 | The writer succeeds exactly when the packets are acceptable and the stream fits; otherwise it has emitted a prefix of the stream within the budget |
| OggWriter.WritePacket | src/core/codecs/ogg_codec.cpp:209-276 | One packet's pages follow the pages written so far, or the stream does not fit |
| OggWriter.FramePage | src/core/codecs/ogg_codec.cpp:216-268 | Filling header and body in place yields exactly the encoded next page of the packet |
| OggWriter.Validate | src/core/codecs/ogg_codec.cpp:183-200 | The geometry check accepts exactly the acceptable packet lists |
| OggWriter.StreamDemuxes | src/core/codecs/ogg_codec.cpp:179-277 | A demultiplexer written from RFC 3533, section 6, which rejects a page on which no packet ends unless its granule is -1, recovers exactly the packets and granules, index by index, with packet zero's unknown granule read as 0 |
| OggWriter.PagesDemux | src/core/codecs/ogg_codec.cpp:209-276 | Page numbers, first and last marks and continued flags are what a demultiplexer demands, over any number of packets |
| OggWriter.PacketDemux | src/core/codecs/ogg_codec.cpp:215-275 | The pages of one packet join back to it |
| OggWriter.PageCount | src/core/codecs/ogg_codec.cpp:224-234 | Helper fact: a packet of L bytes takes L / 65025 + 1 pages, at exact multiples too |
| OggWriter.LacingSplits | src/core/codecs/ogg_codec.cpp:222-234 | The lacing values of a page cut its body into one packet end or none |
| Ogg.PageRoundTrip | src/core/codecs/ogg_codec.cpp:216-270 | An encoded page reads back, its number reduced to four bytes |
| Ogg.PagesRoundTrip | src/core/codecs/ogg_codec.cpp:268-273 | Encoded pages read back in order |
| PickleValues.CachedDepthIsExact | src/modules/renpy/pickle.cpp:10-36 | A measured value's cached depth is the least number of container levels that bounds every path into it |
| PickleValues.ContainerDepth | src/modules/renpy/pickle.cpp:21-27 | The fold over a list gives the height of its children, and fails exactly when one is 64 deep |
| PickleValues.DictDepth | src/modules/renpy/pickle.cpp:29-36 | The same over a table's values, in any order |
| PickleValues.Append | src/modules/renpy/pickle.cpp:38-43 | Raising the cached depth on append equals measuring the longer list afresh |
| PickleValues.AppendAll | src/modules/renpy/pickle.cpp:45-51 | The same for many children |
| PickleValues.Set | src/modules/renpy/pickle.cpp:53-63 | Replacing an entry, even the deepest child, leaves the depth a fresh measure would give, and fails exactly when the new child is too deep |
| PickleValues.ReplacedHeight | src/modules/renpy/pickle.cpp:57-62 | Unless a tallest child gives way to a shorter one, the larger of the two depths is the new height |
| PickleValues.Clone | src/modules/renpy/pickle.cpp:86-110 | A clone equals its source, caches included, and never fails on a value within the limit |
| Pickle.ExecuteKeepsHealthy | src/modules/renpy/pickle.cpp:253-596 | Every instruction keeps every value on the stack and in the memo exactly measured and at most 64 levels deep |
| Pickle.RunIsSound | src/modules/renpy/pickle.cpp:598-606 | Whatever a program yields is exactly measured and at most 64 levels deep |
| PickleScript.ScriptLoads | src/modules/renpy/pickle.cpp:253-606 | A pickle written in any of the ways the instructions allow, with short or long operands, containers collected from a mark, filled one by one or in batches, and values kept in the memo and recalled, loads to its meaning |
| PickleScript.ScriptRuns | src/modules/renpy/pickle.cpp:253-596 | The code of such a script pushes its meaning on any machine and leaves exactly the memo it says |
| PickleScript.MemoizeRuns | src/modules/renpy/pickle.cpp:253-596 | MEMOIZE keeps the top of the stack under the next slot, one past those in use |
| PickleReader.Parser.Perform | src/modules/renpy/pickle.cpp:253-596 | Carrying out an instruction with cached depths and clones is the step of the machine that measures afresh and copies nothing |
| PickleReader.Parser.ParseValue | src/modules/renpy/pickle.cpp:253-596 | One opcode moves the position forward and stays on the reference run |
| PickleReader.Parser.Parse | src/modules/renpy/pickle.cpp:598-606 | The reader terminates and yields exactly what the reference machine yields, nested at most 64 deep |
| PickleReader.Parser.PopMarked | src/modules/renpy/pickle.cpp:233-251 | The values above the last mark, which is removed, unless the stack has shrunk below it |
| PickleReader.Parser.ReadLine | src/modules/renpy/pickle.cpp:214-226 | The bytes up to the next newline, or failure when there is none |
| PickleReader.SetAll | src/modules/renpy/pickle.cpp:494-503 | Setting checked pairs one at a time never fails and gives what setting them together gives |
| PickleReader.DecodeLong | src/modules/renpy/pickle.cpp:557-580 | Folding the bytes and extending the sign is two's complement, for one to eight bytes |
| PickleDump.DumpedValueLoads | src/modules/renpy/pickle.cpp:598-606 | Any storable value written as a pickle loads back, caches included, exactly when it nests at most 64 deep |
| PickleDump.CodeRuns | src/modules/renpy/pickle.cpp:253-596 | The code of a value pushes that value on any machine, or fails when it nests too deep |
| RpgMaker.XorWordTwice | src/modules/rpgmaker/rpgmaker.cpp:58-77 | Masking a length or a size twice gives it back |
| RpgMaker.CryptTwice | src/modules/rpgmaker/rpgmaker.cpp:195-216 | Encrypting twice gives the bytes back, tails of one to three bytes included |
| RpgMaker.CryptChunks | src/archive.cpp:130-147 | Decrypting chunks of whole words with the carried key is decrypting in one go |
| RpgMaker.Decrypt | src/modules/rpgmaker/rpgmaker.cpp:195-216 | The buffer is decrypted in place and the key for the next chunk returned |
| RpgMaker.MaskName | src/modules/rpgmaker/rpgmaker.cpp:65-71 | Each byte of a name uses the low byte of the next key |
| RpgMaker.ListLegacyFiles | src/modules/rpgmaker/rpgmaker.cpp:45-94 | The listing of an archive, or failure exactly where an entry or the count is refused |
| RpgMaker.ExtractFile | src/archive.cpp:116-147 | Extraction in 128 KiB chunks gives the one-shot decryption of the body |
| RpgMaker.MakeLegacyArchive | src/tests/support/archive_fixtures.cpp:346-367 | The encoder writes the archive, and fails exactly when a length does not fit 32 bits |
| RpgMaker.ArchiveRoundTrip | src/tests/support/archive_fixtures.cpp:116-148 | Listing and decrypting an encoded archive gives back every name and payload in order, up to 100,000 entries |
| RpgMakerWire.WireRoundTrip | src/modules/rpgmaker/rpgmaker.cpp:45-94 | The archive laid out position by position, each field, name byte and body word masked by the key of its own step, is what the encoder writes and what the reader lists |
| RpgMakerWire.KeyIsPower | src/modules/rpgmaker/rpgmaker.cpp:38-43 | After n steps, twice the key plus one is 7 to the n times what it was, modulo 2 to the 33 |
| RpgMaker.ListedArchiveIsCanonical | src/modules/rpgmaker/rpgmaker.cpp:45-94 | Every archive the reader accepts is the encoding of what it lists |
| BinaryResourceReader.ReadBinaryResource | src/core/godot/binary_resource.cpp:1283-1306 | The mutable parser computes exactly the specified parse, in either mode |
| BinaryResourceReader.Parser.ReadAny | src/core/godot/binary_resource.cpp:1059-1069 | One value at one depth: the specified value, position, node count and charge, or the specified failure |
| BinaryResourceReader.Parser.ReadPayload | src/core/godot/binary_resource.cpp:748-763 | A payload kept or cut, and the bytes skipped behind it |
| BinaryResourceReader.Parser.ReadDictionary | src/core/godot/binary_resource.cpp:1005-1057 | A dictionary, represented only when every key is text and no name repeats |
| BinaryResourceReader.Parser.ReadItems | src/core/godot/binary_resource.cpp:848-860 | An array of child values within the count, depth and node budgets |
| BinaryResourceReader.Parser.ReadImage | src/core/godot/binary_resource.cpp:897-932 | An embedded image with its versioned format field |
| BinaryResourceReader.Parser.ReadObject | src/core/godot/binary_resource.cpp:862-895 | A reference, resolved against the tables or the legacy ids |
| BinaryResourceReader.Parser.ReadNodePath | src/core/godot/binary_resource.cpp:937-954 | Two counts and that many names, consumed exactly |
| BinaryResourceReader.Parser.ReadStringBody | src/core/godot/binary_resource.cpp:655-675 | A string within its bound, NUL-terminated, well-formed and free of NUL |
| BinaryResourceReader.Parser.ReadName | src/core/godot/binary_resource.cpp:682-693 | A name from the string table, charged, or inline where the engine allows it |
| BinaryResourceReader.Parser.ReadHead | src/core/godot/binary_resource.cpp:1071-1144 | The header, and the settings it gives the rest of the parse |
| BinaryResourceReader.Parser.ReadAllTables | src/core/godot/binary_resource.cpp:1146-1178 | The string, external and internal tables |
| BinaryResourceReader.Parser.ReadAllRecords | src/core/godot/binary_resource.cpp:1226-1255 | One record for each internal row, at its offset |
| BinaryResourceReader.Parser.Pay | src/core/godot/binary_resource.cpp:396-402 | A charge succeeds exactly when it fits the allocation budget |
| BinaryResourceReader.IndexIds | src/core/godot/binary_resource.cpp:1184-1224 | Each legacy id names one directory row; a malformed or repeated id rejects |
| BinaryResourceReader.HasDuplicate | src/core/godot/binary_resource.cpp:1038-1053 | Whether two represented names are equal |
| BinaryResource.ReadValue | src/core/godot/binary_resource.cpp:1059-1069 | Reading a value keeps the mode, keeps the position in the input and both budgets within their limits, and only ever adds charges |
| Mips.ChainMatches | src/modules/godot/image_resource.cpp:350-369 | The iterated-halving walk answers whether the chain is exactly the total, and overflows only when the base level does |
| Mips.ChainBytes | src/core/godot/texture.cpp:183-192 | The shift-and-clamp sum is the iterated-halving sum |
| Mips.MaxMipLevels | src/core/godot/texture.cpp:150-161 | The number of levels down to one pixel |
| Mips.DimensionStep | src/core/godot/texture.cpp:175-179 | Shifting once more is shifting the halved dimension |
| Mips.ShiftedSumIsChain | src/core/godot/texture.cpp:183-192 | Summing the shifted levels is summing the halved ones |
| Mips.LevelIsRepresentable | src/modules/godot/image_resource.cpp:292-307 | The level size exists exactly when its products fit 64 bits |
| Mips.LevelsAgree | src/modules/godot/image_resource.cpp:292-307 | For every format both tables know, the two level sizes agree at every extent |
| Mips.FormatsMatch | src/modules/godot/image_resource.cpp:212-226 | Every format the prober knows has a descriptor of the same geometry in the writer's table |
| Mips.CheckProbedChain | src/core/godot/texture.cpp:363-384 | Over the whole wire range, the writer's chain check says yes for exactly the prober's chain size |
| Mips.ProbedBaseConverts | src/core/godot/texture.cpp:469-493 | Every raw body the prober exposes has the base size the writer requires |
| BlockImages.DecodeBc | src/core/codecs/bc_codec.cpp:74-144 | A block grid decodes exactly when its dimensions, budgets and length are right, and every row of the buffer is the row its blocks describe, clipped at both edges |
| BlockImages.DecodeBlock | src/core/codecs/bc_codec.cpp:121-141 | One block fills its own clipped rectangle and nothing else |
| BlockGrid.PixelOfGrid | src/core/codecs/bc_codec.cpp:121-141 | Channel c of the pixel at (x, y) is that channel of texel (x mod 4, y mod 4) of the block the grid holds at (x / 4, y / 4) |
| BlockGrid.GridBlock | src/core/codecs/bc_codec.cpp:121-126 | The bytes of a grid of blocks are complete, and the block found at (x, y) is the one put there |
| BlockImages.CopyBlockRow | src/core/codecs/bc_codec.cpp:135-140 | One row of a block lands in its place and leaves every other row as it was |
| BlockImages.BlockBounds | src/core/codecs/bc_codec.cpp:125-126 | Every block of the grid lies inside the input |
| BlockImages.RowsAfterCopy | src/core/codecs/bc_codec.cpp:135-140 | A copy into one row of the linear buffer leaves the other rows as they were |
| RawImageWriter.StripRow | src/modules/godot/image_resource.cpp:808-817 | A row decoded from its four-row strip is that row of the whole image |
| RawImageWriter.StripIsAdmitted | src/modules/godot/image_resource.cpp:812-813 | A strip passes every check the whole image passes |
| RawImageWriter.RowReader.ReadRow | src/modules/godot/image_resource.cpp:807-838 | Rows asked for in any order, through the cached strip or element by element, are the rows of the whole image |
| RawImageWriter.RowReader.ReadPlainRow | src/modules/godot/image_resource.cpp:827-837 | A plain row is the channels of its own elements, and no others |
| RawImageWriter.AlphaToGreen | src/modules/godot/image_resource.cpp:818-825 | Red stays, alpha moves to green, blue becomes zero and alpha full |
| RawImageWriter.WriteRawImage | src/modules/godot/image_resource.cpp:779-840 | For every format, compressed or plain, the writer emits the picture exactly when the format is known, the dimensions and both budgets are right and the level has its exact size |
| RawImageWriter.WritableIsAdmitted | src/modules/godot/image_resource.cpp:313-336 | The writer demands of a compressed level exactly what the block decoder demands of an image |
| RawImageWriter.PictureIsLinear | src/modules/godot/image_resource.cpp:826-838 | What the rows of a plain level emit is its elements in order, wherever a row ends |
| RawImageWriter.PixelsJoin | src/modules/godot/image_resource.cpp:826-838 | A plain level may be cut behind any element and read in two parts |
| RawImageWriter.PictureIsWhole | src/modules/godot/image_resource.cpp:779-840 | What the strips emit is the whole image's pixel buffer |
| Ima.DecodeNibble | src/core/codecs/godot_ima_codec.cpp:60-90 | One nibble moves one lane, which stays within 16 bits and the step table |
| ImaTrack.SamplesAreTracks | src/core/codecs/godot_ima_codec.cpp:60-110 | Each lane follows a track of predictors and step indices from zero, nibble by nibble, and sample frame * channels + lane is where its lane stands behind that frame |
| ImaTrack.MagnitudeIsOddEighths | src/core/codecs/godot_ima_codec.cpp:72-84 | A nibble's move is the odd multiple of an eighth of the step that its low bits name, but for rounding |
| Ima.AfterChunks | src/core/codecs/godot_ima_codec.cpp:93-110 | Decoding on from an even frame with the carried lane is decoding in one go |
| Ima.DecodeChunk | src/core/codecs/godot_ima_codec.cpp:93-110 | A chunk of exact geometry yields the samples of those frames of the whole payload |
| Ima.DecodeIma | src/core/codecs/godot_ima_codec.cpp:119-188 | The one-shot decoder accepts exactly the decodable payloads and yields every frame's samples |
| Ima.ResolveSampleIma | src/core/godot/audio_resource.cpp:516-559 | The seed prefix, none or four zero bytes a channel, or refusal |
| Ima.ResolvedIsDecodable | src/core/godot/audio_resource.cpp:516-559 | Helper fact: what the resolver accepts, less its seed, passes the decoder's checks |
| Ima.WriteImaStreaming | src/core/godot/audio_resource.cpp:1036-1052 | Pulling 2048 frames at a time through bounded reads emits what the one-shot decoder emits |

## Left out

- Codecs other than FastLZ: zlib, zstd and brotli blocks are decoded by libraries, and only the FastLZ mode of RSCC is modelled.
- Rscc.CheckedDecompressBlock: the upstream FastLZ library call is taken to decode by the token grammar.
- Cfb.Aes256Cfb128.Decrypt: the cryptography provider's operation is modelled as CFB128 over an arbitrary block function; key setup, locking and provider errors are not modelled.
- Inputs for which no tree is admissible and whose rows also cost too much may be refused for either reason.
- Platform text: case folding is any function of one code unit that fixes `~`, `.`, `/` and digits; path escaping, normalization and UTF-16 conversion are arbitrary functions. Nothing is claimed about names being safe for Windows.
- Ogg checksums: the page checksum is an arbitrary function; the writer that goes through libogg is not modelled.
- Pickle values: a container owns its children alone, so a changed container is replaced in the stack slot that owns it; object identity is not modelled. Floats are bit patterns.
- BinaryResourceReader.IndexIds: the sorted table and its binary search are modelled as a map from ids to rows.
- BinaryResourceReader.HasDuplicate: the sort by name is modelled as a set of the names seen.
- Resource reals: kept as wire bits and width; widening to double is not modelled. Element sizes charged to the allocation budget are parameters. The admission callback that may decline a main type is not modelled.
- BlockImages.DecodeBc: decoding one block of a family is an arbitrary function of its bytes; the format is given by its block size.
- RawImageWriter.WriteRawImage: the reader of one plain element is an arbitrary function of its bytes, like the decoder of a block; the PNG encoder behind the rows is left out.
- Ima.WriteImaStreaming: yields the samples handed to the WAVE writer; the RIFF container around them is a library's.
- RPG Maker ACE archives, whose keys are stored rather than rolled, and Zanzarah, PCK and Ren'Py directories are not modelled.
- State after a thrown exception, and all input and output, leases and observer plumbing.
- PE key recovery, which is heuristic.
