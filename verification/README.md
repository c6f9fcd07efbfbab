# CoreFoundation data structures in Dafny

Dafny models of the data structures and codecs of CoreFoundation CF-1153.18, with proofs of
what they promise their callers. `dafny verify dfyconfig.toml` checks the whole project.

| files | component |
|---|---|
| `Machine`, `BigEndian`, `Ordering` | machine integers, stored integers, comparators |
| `PlistFormat`, `PlistReader` | binary property lists: validation and reading |
| `PlistLayout`, `PlistTable`, `PlistExamples` | the same against files put together from parts, the table of the format and files byte for byte |
| `PlistBuffer`, `PlistFlatten`, `PlistEncode`, `PlistWriter` | flattening an object graph and writing it |
| `PlistRoundTrip` | what is written is read back |
| `HashSlots`, `HashTables`, `HashStores`, `BasicHash` | the hash table behind CFDictionary, CFSet and CFBag |
| `HashRuns`, `HashEqual`, `HashNumbering` | whole runs, enumeration, comparison, tables of numbers |
| `ArrayDeque` | CFMutableArray: splicing in a centred buffer, sorting, searching |
| `Unicode`, `Utf8Encoder`, `Utf8Decoder` | UTF-16 to UTF-8 and back |
| `BinaryHeap` | CFBinaryHeap |
| `BigNumber`, `BigNumberText` | base-one-billion numbers and their decimal text |
| `BitVector` | CFBitVector |

Each component has a simple specification of its own: finite trees denoted by offsets, maps
denoted by slots up to key equality, plain lists, the Unicode tables and grammar, multisets
and integers. The methods follow the C code branch by branch and are proved against it.

Callbacks are parameters. Key equality is an equivalence the hash respects, a comparator is a
total preorder, and retaining returns its argument. Retained and released values are booked in
ghost multisets. A write stream may write part of what it is offered or fail; a data stream
does not fail. The set that uniques values when a graph is flattened is created without an
equality callback (line 628 of CFBinaryPList.c), so it compares addresses; the model takes any
equality that is sound for the contents. Addresses of data are parameters, so wrapping address tests are modelled as
such. The trailer of a property list is a record of 32 bytes, as the comment on the format
describes it.

Where the code does not do what one would expect, the model does what the code does, a law
states exactly when the expectation holds, and a member shows where it does not:

| deviation | law | failure |
|---|---|---|
| 128-bit integers in property lists keep 64 bits | `ReadBackExact` | `WideNumberChanged` |
| a dictionary with a container key is written but not read | `RoundTrip` | `ContainerKeyLost` |
| the substitute words of the hash table change | `LoadStore` | `SubstitutesChanged` |
| counts that add up to 2^64 compare as none | `AreEqual` | `WrappedTotals` |
| the highest of too many numbers is read back as another | `AddIntValueAndInc` | `NumberLost` |
| a key held more than once leaves its count when its number is removed | `CountLeftBehind` | `CountLeftBehind` |
| a digit sum of one billion is left standing | `Add` | `FullDigit` |
| such a digit compares below what it equals | `DigitOrderRight` | `FullDigitCompares` |
| such a digit is misprinted | `ToCString`, `PrintSum` | `SumMisprinted` |
| zero has two signs that compare unequal | `Compare` | `NegativeZero` |
| the halves of a 128-bit number are exchanged | `NumberCreate` | `HalvesExchanged` |
| the top group of a decimal text is cut to 32 bits | `FromCString` | `LongText` |
| unpaired surrogates are measured but not converted | `LengthsAgree` | `LoneSurrogate` |
| the length function counts in 32 bits | `LengthsAgree` | `LengthWrapped`, `LossHidden` |
| the room for an encoded character is cut to 32 bits | `ToUTF8` | `RoomCut` |
| bytes of a split surrogate pair are reported as read | `FromUTF8` | `TornPair` |

## Model

| member | source | states |
|---|---|---|
| BigEndian.GetSizedInt | RunLoopSouceCode/CF-1153.18/CFBinaryPList.c:735-757 | The read of one to sixteen (or more) bytes is the big-endian number they spell, modulo 2^64; no byte outside the field is read. |
| BigEndian.FromToBE | RunLoopSouceCode/CF-1153.18/CFBinaryPList.c:331-350 | Writing a number in `k` bytes and reading it back is the identity for every number below 256^k. |
| PlistFormat.CheckedAdd | RunLoopSouceCode/CF-1153.18/CFBinaryPList.c:64-68 | The overflow flag is set exactly when the true sum does not fit 64 bits, and the result is the sum modulo 2^64. |
| PlistFormat.CheckedMul | RunLoopSouceCode/CF-1153.18/CFBinaryPList.c:70-75 | The overflow flag is set exactly when the true product does not fit 64 bits. |
| PlistFormat.CheckSizes | RunLoopSouceCode/CF-1153.18/CFBinaryPList.c:774-830 | The wrapping size tests accept exactly the trailers whose object table, offset table and trailer fill the data in unbounded arithmetic. |
| PlistFormat.CheckEntries | RunLoopSouceCode/CF-1153.18/CFBinaryPList.c:832-838 | The loop accepts exactly when every entry of the offset table lies below the table itself. |
| PlistFormat.GetTopLevelInfo | RunLoopSouceCode/CF-1153.18/CFBinaryPList.c:759-847 | Accepts exactly the well-formed byte strings, whatever address the data lies at, and returns their trailer, top offset and marker; every byte read lies inside the data. |
| PlistLayout.Validate | RunLoopSouceCode/CF-1153.18/CFBinaryPList.c:759-847 | The same against files put together from parts: bytes are accepted exactly when they are `bplist0`, any byte, objects, an offset table and a 32-byte trailer with sizes that hold every number, entries below the table and a top object among them; the result is then the trailer, the top object's entry and the byte it leads to. |
| PlistLayout.SoundAccepted | RunLoopSouceCode/CF-1153.18/CFBinaryPList.c:759-847 | Every file put together from sound parts is well formed, with the object its top entry leads to on top. |
| PlistLayout.PartsBytes | RunLoopSouceCode/CF-1153.18/CFBinaryPList.c:759-847 | Well-formed bytes are what their parts put together. |
| PlistLayout.PartsSound | RunLoopSouceCode/CF-1153.18/CFBinaryPList.c:774-838 | The parts of well-formed bytes are sound. |
| PlistFormat.ExtentTestIsFits | RunLoopSouceCode/CF-1153.18/CFBinaryPList.c:1202-1204 | The wrapping address test on an object's extent admits exactly the extents that end inside the object table. |
| PlistFormat.TwoStepTestIsFits | RunLoopSouceCode/CF-1153.18/CFBinaryPList.c:1255-1260 | The test in two additions on a UTF-16 string admits exactly the strings that end inside the object table, and those never overflow the byte count after it. |
| PlistFormat.ReadInt | RunLoopSouceCode/CF-1153.18/CFBinaryPList.c:855-870 | A length prefix that is accepted ends inside the object table and moves the position forward. |
| PlistFormat.OffsetOfRefAt | RunLoopSouceCode/CF-1153.18/CFBinaryPList.c:872-886 | A reference gives an offset before the offset table, or the one value that no object can have. |
| PlistFormat.Decode | RunLoopSouceCode/CF-1153.18/CFBinaryPList.c:1075-1327 | Whatever decodes starts inside the object table, and a container's whole reference list lies inside it; a dictionary has as many values as keys. |
| PlistTable.ReadsHeader | RunLoopSouceCode/CF-1153.18/CFBinaryPList.c:239-283 | A count below 15 in the marker's low half, or an integer of 1, 2, 4 or 8 bytes after it, is read as that count. |
| PlistTable.ReadsCounted | RunLoopSouceCode/CF-1153.18/CFBinaryPList.c:239-283 | Markers 0x4n, 0x5n, 0x6n, 0xAn, 0xCn and 0xDn with their count and contents are read as data, ASCII string, UTF-16 string, array, set and dictionary. |
| PlistTable.ReadsInt | RunLoopSouceCode/CF-1153.18/CFBinaryPList.c:239-283 | Markers 0x10 to 0x14: integers of fewer than eight bytes are unsigned, of eight signed, of sixteen cut to the low 64 bits. |
| PlistTable.ReadsUid | RunLoopSouceCode/CF-1153.18/CFBinaryPList.c:1286-1297 | Markers 0x80 to 0x8F: a UID below 2^32 in as many bytes as the low half says and one more. |
| PlistTable.ReadsFixed | RunLoopSouceCode/CF-1153.18/CFBinaryPList.c:239-283 | Markers 0x00, 0x08, 0x09, 0x22, 0x23 and 0x33: null, booleans, reals and dates. |
| PlistTable.RefusesOthers | RunLoopSouceCode/CF-1153.18/CFBinaryPList.c:1075-1559 | Nothing else decodes. |
| PlistTable.ReadsInside | RunLoopSouceCode/CF-1153.18/CFBinaryPList.c:1075-1327 | Whatever decodes lies between its marker and the offset table: data and strings are the bytes there, reals and dates the bytes after the marker, integers and UIDs as many bytes as the marker says, and containers all their references. |
| PlistReader.DenotesUnique | RunLoopSouceCode/CF-1153.18/CFBinaryPList.c:1061-1559 | Following references from an offset unfolds to at most one finite tree. |
| PlistReader.CycleDenotesNothing | RunLoopSouceCode/CF-1153.18/CFBinaryPList.c:1072-1073 | An object that reaches itself through references denotes no finite tree, so refusing it loses nothing. |
| PlistReader.Reader.CreateObject | RunLoopSouceCode/CF-1153.18/CFBinaryPList.c:1061-1559 | For every checked document, offset, depth, cache that holds only true meanings and path set of ancestors: the reader terminates and returns the tree the offset denotes, or fails when it denotes none. The cache never changes the answer, and cycles are found although the path set starts only below depth 15. |
| PlistReader.Reader.CreateContainer | RunLoopSouceCode/CF-1153.18/CFBinaryPList.c:1299-1559 | The same for containers: children in order, keys primitive, path set restored, result cached. |
| PlistReader.Reader.ReadChildren | RunLoopSouceCode/CF-1153.18/CFBinaryPList.c:1513-1526 | The loop reads exactly the children's meanings, or fails exactly when some child has none or a key is a container. |
| PlistReader.MeaningIffSound | RunLoopSouceCode/CF-1153.18/CFBinaryPList.c:1061-1559 | An offset has a tree if and only if every object reachable from it decodes, has primitive keys and does not contain itself. |
| PlistReader.TryParse | RunLoopSouceCode/CF-1153.18/CFBinaryPList.c:1566-1609 | Validation, then reading with a cache, gives the value of the byte string, and fails exactly when the string is malformed or its top object denotes nothing. |
| PlistBuffer.WriteBuffer.constructor | RunLoopSouceCode/CF-1153.18/CFBinaryPList.c:158-167 | A new buffer has written nothing. |
| PlistBuffer.WriteBuffer.WriteBytes | RunLoopSouceCode/CF-1153.18/CFBinaryPList.c:169-205 | With a stream, the only destination the writer sets up, and any pattern of partial writes: the stream gains a prefix of the bytes, all of them unless an error is recorded; nothing is written after an error. |
| PlistBuffer.WriteBuffer.BufferFlush | RunLoopSouceCode/CF-1153.18/CFBinaryPList.c:207-210 | Without an error, everything written so far is in the stream afterwards. |
| PlistBuffer.WriteBuffer.BufferWrite | RunLoopSouceCode/CF-1153.18/CFBinaryPList.c:212-237 | For pieces of any size, stream plus buffered bytes is the concatenation of all pieces, so `written + used` is the position of the next byte. |
| PlistFlatten.Flattener.Flatten | RunLoopSouceCode/CF-1153.18/CFBinaryPList.c:543-585 | On any finite graph with sharing: the list gains exactly the visited objects, parents before children, without the strings, numbers, dates and data already in it, so no two places of a fresh list hold such values that are the same. Numbers already given are kept, each number leads to the first place of the object or of a value taken for the same, all children of appended objects are numbered, and no more entries and bytes are added than the tree has nodes and bytes. |
| PlistFlatten.Flattener.AppendNew | RunLoopSouceCode/CF-1153.18/CFBinaryPList.c:562-584 | The same for the part that appends, with shared containers appended again and only their first number kept, within the same bounds. |
| PlistFlatten.Flattener.Enlist | RunLoopSouceCode/CF-1153.18/CFBinaryPList.c:563-565 | A new entry at the end, numbered unless it has a number. |
| PlistFlatten.Flattener.Renumber | RunLoopSouceCode/CF-1153.18/CFBinaryPList.c:554-561 | A value already in the set gets the number of the one there, and nothing is appended. |
| PlistFlatten.KeptDistinct | RunLoopSouceCode/CF-1153.18/CFBinaryPList.c:547-565 | In a list without repeated values no two places hold strings, numbers, dates or data that are the same. |
| PlistFlatten.UniquedIs | RunLoopSouceCode/CF-1153.18/CFBinaryPList.c:545-550 | The type test of the code is that for strings, numbers, dates and data. |
| PlistWriter.AppendInt | RunLoopSouceCode/CF-1153.18/CFBinaryPList.c:329-350 | Appends the marker and the number big-endian in the smallest of 1, 2, 4 or 8 bytes that holds it. |
| PlistWriter.AppendUid | RunLoopSouceCode/CF-1153.18/CFBinaryPList.c:352-371 | Appends a UID as its marker and the smallest of 1, 2, 4 or 8 bytes that holds it. |
| PlistWriter.AppendString | RunLoopSouceCode/CF-1153.18/CFBinaryPList.c:373-403 | An ASCII string byte per character, any other as UTF-16 pairs, after marker and count. |
| PlistWriter.AppendNumber | RunLoopSouceCode/CF-1153.18/CFBinaryPList.c:408-454 | Integers, 128-bit integers and reals in their formats. |
| PlistWriter.AppendRefs | RunLoopSouceCode/CF-1153.18/CFBinaryPList.c:491-506 | Reference numbers in the table's order, each in the reference size. |
| PlistWriter.AppendObject | RunLoopSouceCode/CF-1153.18/CFBinaryPList.c:456-541 | Writes exactly the object's encoding and succeeds exactly for the types the format has. |
| PlistTable.StoredByte | RunLoopSouceCode/CF-1153.18/CFBinaryPList.c:331-350 | Byte `i` of a number stored in `k` bytes counts 256 to the power `k - 1 - i`. |
| PlistTable.WrittenNumber | RunLoopSouceCode/CF-1153.18/CFBinaryPList.c:329-350 | The bytes of every 64-bit integer: 0x10, 0x11, 0x12 or 0x13 and the least of 1, 2 and 4 bytes, or 8. |
| PlistTable.WrittenUid | RunLoopSouceCode/CF-1153.18/CFBinaryPList.c:352-371 | The bytes of every UID: 0x80, 0x81 or 0x83 and 1, 2 or 4 bytes. |
| PlistTable.WrittenBytes | RunLoopSouceCode/CF-1153.18/CFBinaryPList.c:408-480 | The bytes of booleans, reals, dates and data. |
| PlistTable.WrittenText | RunLoopSouceCode/CF-1153.18/CFBinaryPList.c:373-403 | A string gets marker 0x5n or 0x6n and its units, as it is ASCII or not. |
| PlistTable.WrittenUnits | RunLoopSouceCode/CF-1153.18/CFBinaryPList.c:373-403 | ASCII means every unit below 0x80, written in one byte; other units are written high byte first. |
| PlistTable.WrittenContainers | RunLoopSouceCode/CF-1153.18/CFBinaryPList.c:481-534 | Arrays get marker 0xAn and dictionaries 0xDn with the number of pairs, then the references. |
| PlistWriter.AppendData | RunLoopSouceCode/CF-1153.18/CFBinaryPList.c:467-474 | Data: marker, count and bytes. |
| PlistWriter.AppendDate | RunLoopSouceCode/CF-1153.18/CFBinaryPList.c:475-480 | A date: its marker and eight bytes. |
| PlistWriter.ByteCount | RunLoopSouceCode/CF-1153.18/CFBinaryPList.c:589-603 | The smallest of 1, 2, 4 and 8 bytes that holds the count. |
| PlistWriter.WriteBodies | RunLoopSouceCode/CF-1153.18/CFBinaryPList.c:658-678 | Each recorded offset is the position of its object in the output; failure exactly when some object cannot be written. |
| PlistWriter.WriteOffsets | RunLoopSouceCode/CF-1153.18/CFBinaryPList.c:684-688 | The offset table is the recorded offsets, each in the offset size. |
| PlistWriter.WriteTail | RunLoopSouceCode/CF-1153.18/CFBinaryPList.c:680-694 | Offset table and trailer complete the file image. |
| PlistWriter.Write | RunLoopSouceCode/CF-1153.18/CFBinaryPList.c:610-707 | A positive length is returned exactly when the tree is writable and no stream error occurred; it is then the length of the output, bounded by the tree, and for a tree of fewer than 2^32 nodes the output is the file image of the flattened list: all visits without repeated values, no two places holding strings, numbers, dates or data that are the same, every number leading to the first place. |
| PlistWriter.WritableRoot | RunLoopSouceCode/CF-1153.18/CFBinaryPList.c:610-707 | The tree is writable exactly when every object of the flattened list is. |
| PlistWriter.PartsBulk | RunLoopSouceCode/CF-1153.18/CFBinaryPList.c:456-541 | The encodings of a flattened list take no more bytes than the bound computed from its objects. |
| PlistRoundTrip.ScalarBack | RunLoopSouceCode/CF-1153.18/CFBinaryPList.c:329-541 | Decoding the encoding of any writable scalar, wherever it lies, gives it back (128-bit integers keep their low 64 bits). |
| PlistRoundTrip.RefsBack | RunLoopSouceCode/CF-1153.18/CFBinaryPList.c:481-534 | A written container header decodes to the same kind and number of references. |
| PlistRoundTrip.ChildBack | RunLoopSouceCode/CF-1153.18/CFBinaryPList.c:872-886 | A written reference leads to the offset of the object with that number. |
| PlistRoundTrip.ImageWellFormed | RunLoopSouceCode/CF-1153.18/CFBinaryPList.c:759-847 | Every file image the writer can produce passes the validator. |
| PlistRoundTrip.TreeBack | RunLoopSouceCode/CF-1153.18/CFBinaryPList.c:1061-1559 | In a written file, the offset of an object denotes the tree the object unfolds to. |
| PlistRoundTrip.BadKeyBack | RunLoopSouceCode/CF-1153.18/CFBinaryPList.c:1513-1523 | A dictionary with a container for a key is written but denotes nothing when read. |
| PlistRoundTrip.RoundTrip | RunLoopSouceCode/CF-1153.18/CFBinaryPList.c:543-707 | Parsing the file written for a graph gives the tree the graph unfolds to, and fails exactly when some dictionary key is a container. |
| PlistRoundTrip.AnyOnTop | RunLoopSouceCode/CF-1153.18/CFBinaryPList.c:1566-1609 | With any object of a written list named as the top object in the trailer, parsing gives the tree that object unfolds to, or nothing exactly when a dictionary key in it is a container. |
| PlistRoundTrip.ParseAnyOnTop | RunLoopSouceCode/CF-1153.18/CFBinaryPList.c:1566-1609 | Validating such a file gives the offset at which that object was written, and parsing it that tree. |
| PlistRoundTrip.ImageSound | RunLoopSouceCode/CF-1153.18/CFBinaryPList.c:641-707 | The parts of a written file are sound, whichever object is on top. |
| PlistRoundTrip.ReadBackExact | RunLoopSouceCode/CF-1153.18/CFBinaryPList.c:1112-1118 | The tree read back equals the tree written if and only if every 128-bit integer in it is non-negative and below 2^64. |
| PlistRoundTrip.WriteThenParse | RunLoopSouceCode/CF-1153.18/CFBinaryPList.c:610-707 | Writing and parsing in one run: a length is returned exactly for writable trees, and for every one of fewer than 2^32 nodes that fits in memory unshared the result is the tree as read back, or nothing exactly when a dictionary key is a container. The bounds are those of the unfolded tree, so graphs that fit only because equal scalars share one entry are not covered. |
| PlistRoundTrip.ContainerKeyLost | RunLoopSouceCode/CF-1153.18/CFBinaryPList.c:1513-1523 | A dictionary whose key is an empty array is written and then cannot be parsed. |
| PlistRoundTrip.WideNumberChanged | RunLoopSouceCode/CF-1153.18/CFBinaryPList.c:1112-1118 | Minus one, written as a 128-bit integer, is parsed as 2^64 - 1. |
| PlistExamples.ReadTopSecond | RunLoopSouceCode/CF-1153.18/CFBinaryPList.c:1566-1609 | A 45-byte file with true before an array of it, the array on top: its trailer, offset 9 and marker 0xA1 are found and the array is read. |
| PlistExamples.TrueThenArray | RunLoopSouceCode/CF-1153.18/CFBinaryPList.c:641-707 | Those 45 bytes are the file of the two objects with the second on top. |
| PlistExamples.TwoStrings | RunLoopSouceCode/CF-1153.18/CFBinaryPList.c:543-707 | The file of an array of two strings, byte for byte: 47 bytes with one string when the uniquing set takes them for the same, and 50 with two otherwise. |
| HashTables.TableFits | RunLoopSouceCode/CF-1153.18/CFBasicHash.c:225-261 | Every capacity of the table is at most its number of buckets. |
| HashTables.TableGrows | RunLoopSouceCode/CF-1153.18/CFBasicHash.c:225-261 | Sizes and capacities of the table grow from entry to entry. |
| HashTables.TableTop | RunLoopSouceCode/CF-1153.18/CFBasicHash.c:244-261 | No capacity is above that of the last entry, and none before the last above that of the entry before it. |
| HashTables.IndexForCapacity | RunLoopSouceCode/CF-1153.18/CFBasicHash.c:702-708 | The least table entry whose capacity suffices, for every capacity the table has an entry for. |
| HashTables.LoadStore | RunLoopSouceCode/CF-1153.18/CFBasicHash.c:492-514 | Substituting the two reserved words on storing and restoring them on loading is the identity exactly for words other than the substitutes. |
| HashTables.SubstitutesChanged | RunLoopSouceCode/CF-1153.18/CFBasicHash.c:492-514 | The two substitute words, stored themselves, are read back as zero and all ones. |
| HashStores.FindBucket | RunLoopSouceCode/CF-1153.18/CFBasicHashFindBucket.m:110-182 | The search finds the live bucket with an equal key; without one it returns the first bucket on the key's probe path that is deleted or empty, and none only when all are live. |
| HashStores.FindEmpty | RunLoopSouceCode/CF-1153.18/CFBasicHashFindBucket.m:110-182 | In a table without tombstones the search for a new key ends at the first empty bucket on its probe path. |
| HashSlots.StoreNew | RunLoopSouceCode/CF-1153.18/CFBasicHash.c:1259-1286 | Filling a free bucket on the probe path keeps every entry findable and keys distinct, and adds exactly that entry to what the table denotes. |
| HashSlots.StoreEqual | RunLoopSouceCode/CF-1153.18/CFBasicHash.c:1288-1298 | Overwriting a bucket with an equal key keeps the invariants and replaces exactly that entry. |
| HashSlots.Bury | RunLoopSouceCode/CF-1153.18/CFBasicHash.c:1300-1330 | Leaving a tombstone keeps every other entry findable and removes exactly one entry. |
| HashSlots.SameBagSameContents | RunLoopSouceCode/CF-1153.18/CFBasicHash.c:1127-1249 | Two tables with the same multiset of entries and distinct keys denote the same, whatever their layout. |
| BasicHash.Table.constructor | RunLoopSouceCode/CF-1153.18/CFBasicHash.c:1583-1654 | A new table denotes nothing and satisfies all invariants. |
| BasicHash.Table.SetValue | RunLoopSouceCode/CF-1153.18/CFBasicHash.c:499-514 | Writes one value word, substituted unless literal, and releases the displaced value when asked to. |
| BasicHash.Table.SetKey | RunLoopSouceCode/CF-1153.18/CFBasicHash.c:530-546 | The same for key words. |
| BasicHash.Table.BumpCounts | RunLoopSouceCode/CF-1153.18/CFBasicHash.c:569-626 | Widening the count store changes no count. |
| BasicHash.Table.IncSlotCount | RunLoopSouceCode/CF-1153.18/CFBasicHash.c:628-676 | A count goes up by one at every width; the store is widened before it could wrap. |
| BasicHash.Table.DecSlotCount | RunLoopSouceCode/CF-1153.18/CFBasicHash.c:678-686 | A count goes down by one; the others stay. |
| BasicHash.Table.Rehash | RunLoopSouceCode/CF-1153.18/CFBasicHash.c:1127-1249 | The table denotes the same, entry for entry, tombstones are gone, the load fits, and nothing is retained or released. |
| BasicHash.Table.NewIndex | RunLoopSouceCode/CF-1153.18/CFBasicHash.c:1135-1143 | The new table entry has room for the entries in use and the new ones. |
| BasicHash.Table.MakeRoom | RunLoopSouceCode/CF-1153.18/CFBasicHash.c:1259-1270 | A free bucket on the key's probe path, in a table below capacity, rehashed or not. |
| BasicHash.Table.StoreAt | RunLoopSouceCode/CF-1153.18/CFBasicHash.c:1271-1286 | The new entry is in the table, counters and references follow. |
| BasicHash.Table.ReplaceAt | RunLoopSouceCode/CF-1153.18/CFBasicHash.c:1288-1298 | The entry is replaced, with its count kept, and references follow. |
| BasicHash.Table.Recount | RunLoopSouceCode/CF-1153.18/CFBasicHash.c:1341-1344 | A count up or down changes only that count. |
| BasicHash.Table.MarkDeleted | RunLoopSouceCode/CF-1153.18/CFBasicHash.c:1300-1313 | The entry is gone, and the sixteen-bit tombstone counter is the number of tombstones modulo 2^16. |
| BasicHash.Table.RemoveAt | RunLoopSouceCode/CF-1153.18/CFBasicHash.c:1300-1330 | After shrinking, purging or neither, the entry is gone and the tombstone counter is exact, also when it rolled over. |
| BasicHash.Table.Find | RunLoopSouceCode/CF-1153.18/CFBasicHash.c:860-881 | A bucket is found exactly when the key is denoted, and its entry is the denoted one. |
| BasicHash.Table.Add | RunLoopSouceCode/CF-1153.18/CFBasicHash.c:1332-1350 | Key by key: a new key gets the value and count one; a present key gets one more if counted and below the limit, and keeps its key and value; every other key keeps its entry. The result says whether anything changed, exactly the new key and value are retained, and a key already present needs no room. |
| BasicHash.Table.AddWord | RunLoopSouceCode/CF-1153.18/CFBasicHash.c:1332-1350 | The code of an addition has the effect specified on the denoted map and on the references, in every branch. |
| BasicHash.Table.Replace | RunLoopSouceCode/CF-1153.18/CFBasicHash.c:1352-1362 | A present key gets the new key and value and keeps its count; an absent one stays absent; every other key keeps its entry, and references follow. |
| BasicHash.Table.Set | RunLoopSouceCode/CF-1153.18/CFBasicHash.c:1364-1376 | An absent key is added with count one, a present one gets the new key and value and keeps its count; every other key keeps its entry, references follow, and replacing needs no room. |
| BasicHash.Table.Remove | RunLoopSouceCode/CF-1153.18/CFBasicHash.c:1378-1391 | A key held more than once loses one of its count and nothing else; one held once is gone and its key and value are released; every other key keeps its entry. The previous count is returned. |
| BasicHash.AddEffect | RunLoopSouceCode/CF-1153.18/CFBasicHash.c:1332-1350 | Adding, key by key, on the map itself. |
| BasicHash.ReplaceEffect | RunLoopSouceCode/CF-1153.18/CFBasicHash.c:1352-1362 | Replacing, key by key, on the map itself. |
| BasicHash.SetEffect | RunLoopSouceCode/CF-1153.18/CFBasicHash.c:1364-1376 | Setting, key by key, on the map itself. |
| BasicHash.RemoveEffect | RunLoopSouceCode/CF-1153.18/CFBasicHash.c:1378-1391 | Removing, key by key, on the map itself. |
| BasicHash.Table.SetCapacity | RunLoopSouceCode/CF-1153.18/CFBasicHash.c:1251-1257 | Changes the layout only, and makes room for the capacity asked for. |
| BasicHash.Table.RemoveAll | RunLoopSouceCode/CF-1153.18/CFBasicHash.c:1062-1112 | The table denotes nothing and holds no references. |
| BasicHash.Table.ReleaseAll | RunLoopSouceCode/CF-1153.18/CFBasicHash.c:1098-1112 | Each live entry's value and key are released exactly once, as the table owns values, keys, both or neither. |
| BasicHash.Table.ReleaseOne | RunLoopSouceCode/CF-1153.18/CFBasicHash.c:1100-1108 | One live bucket gives up exactly its value and its key. |
| HashRuns.Run | RunLoopSouceCode/CF-1153.18/CFBasicHash.c:1127-1411 | After every run of add, replace, set, remove, remove-all and set-capacity, the table denotes what the operations prescribe, counters are exact, the load is within the capacity table and exactly the stored keys and values are retained. |
| HashRuns.LiveBelowExact | RunLoopSouceCode/CF-1153.18/CFBasicHash.c:991-1002 | The enumeration lists exactly the live buckets, each once, ascending. |
| HashRuns.Apply | RunLoopSouceCode/CF-1153.18/CFBasicHash.c:991-1002 | The block sees live buckets only, ascending, and passed all but perhaps the last; a live bucket it does not see lies behind one it refused, although the loop stops early. |
| HashRuns.Seen | RunLoopSouceCode/CF-1153.18/CFBasicHash.c:991-1002 | The same said of any list of slots, bucket by bucket. |
| HashEqual.GetCount | RunLoopSouceCode/CF-1153.18/CFBasicHash.c:931-941 | The sum of the counts of all live entries, modulo 2^64; without counts the number of entries. |
| HashEqual.PartnersCover | RunLoopSouceCode/CF-1153.18/CFBasicHash.c:971-989 | When every entry of one table has a partner in the other, equal totals hold exactly when the other has no further keys. |
| HashEqual.ScanDecides | RunLoopSouceCode/CF-1153.18/CFBasicHash.c:971-989 | Scanning one table together with equal totals decides whether the two denote the same. |
| HashEqual.ScanIncludes | RunLoopSouceCode/CF-1153.18/CFBasicHash.c:976-988 | Scanning the slots of the first table decides whether every entry it denotes agrees with the second. |
| HashEqual.AreEqual | RunLoopSouceCode/CF-1153.18/CFBasicHash.c:971-989 | With totals below 2^64, equal exactly when both tables have the same keys, equal counts and, if keys are kept apart from values, equal values. In general: equal tables are always found equal. The answer is right if and only if the totals suffice (they differ modulo 2^64, or are equal and zero or no multiple of 2^64), or they do not mislead (different multiples of 2^64) and the first table is included in the second exactly when the totals are equal. Totals that mislead always give a wrong answer. |
| HashEqual.FindEqual | RunLoopSouceCode/CF-1153.18/CFBasicHash.c:971-989 | Totals and scan together give exactly what wrapped totals and inclusion decide. |
| HashEqual.Judged | RunLoopSouceCode/CF-1153.18/CFBasicHash.c:971-989 | Such a decision, against what the tables denote. |
| HashEqual.ValuesTold | RunLoopSouceCode/CF-1153.18/CFBasicHash.c:971-989 | Two dictionaries with one key and different values are found different. |
| HashEqual.FoundDecides | RunLoopSouceCode/CF-1153.18/CFBasicHash.c:971-989 | The tables denote the same if and only if the totals are equal and the first is included in the second, and wrapped totals with a scan find this exactly under the condition above. |
| HashEqual.WrappedTotals | RunLoopSouceCode/CF-1153.18/CFBasicHash.c:971-989 | A bag built by adding three keys 2^63 - 1, 2^63 - 1 and 2 times is found equal to an empty bag. |
| HashEqual.SameBucket | RunLoopSouceCode/CF-1153.18/CFBasicHash.c:977-986 | One round of the scan: true exactly when the other table has the bucket's key with the same count and, if keys are kept apart from values, an equal value. |
| HashNumbering.IncFrom | RunLoopSouceCode/CF-1153.18/CFBasicHash.c:1428-1438 | The loop moves up exactly the numbers from the given one on, each as it will be read back. |
| HashNumbering.DecAbove | RunLoopSouceCode/CF-1153.18/CFBasicHash.c:1449-1463 | The loop moves down exactly the numbers above the given one and finds its bucket. |
| HashNumbering.AddIntValueAndInc | RunLoopSouceCode/CF-1153.18/CFBasicHash.c:1413-1443 | A new key takes number `p` and every key whose number is `p` or more gets the next one, across any rehash, in tables with or without counts and retained keys; a present key changes nothing. The numbers stay distinct and below the count if and only if no key was added or there were fewer than the first substitute word. |
| HashNumbering.NumbersEnd | RunLoopSouceCode/CF-1153.18/CFBasicHash.c:1413-1465 | A table of numbers never has more keys than the first substitute word. |
| HashNumbering.NumberLost | RunLoopSouceCode/CF-1153.18/CFBasicHash.c:1429-1436 | In a table with as many keys as the first substitute word, the highest number is read back as all ones after an insertion. |
| HashNumbering.ReadsBack | RunLoopSouceCode/CF-1153.18/CFBasicHash.c:1429-1436 | In a smaller table every moved number is read back as it was stored. |
| HashNumbering.RemoveIntValueAndDec | RunLoopSouceCode/CF-1153.18/CFBasicHash.c:1445-1465 | The key with number `p`, held once, goes and every key with a number above gets the one before, in tables with or without counts and retained keys; the numbers stay distinct and below the count. |
| HashNumbering.InsertedAt | RunLoopSouceCode/CF-1153.18/CFBasicHash.c:1413-1443 | Inserting, key by key. |
| HashNumbering.TakenAt | RunLoopSouceCode/CF-1153.18/CFBasicHash.c:1445-1465 | Removing, key by key. |
| HashNumbering.CountLeftBehind | RunLoopSouceCode/CF-1153.18/CFBasicHash.c:1300-1313 | Erasing the bucket of a key leaves the stores in order if and only if the key was held once. |
| HashNumbering.EveryNumberUsed | RunLoopSouceCode/CF-1153.18/CFBasicHash.c:1413-1465 | Distinct numbers below the count are onto: every number below the count belongs to a key. |
| HashNumbering.InsertKeepsNumbers | RunLoopSouceCode/CF-1153.18/CFBasicHash.c:1413-1443 | Inserting keeps values distinct and below the new count. |
| HashNumbering.RemoveKeepsNumbers | RunLoopSouceCode/CF-1153.18/CFBasicHash.c:1445-1465 | Removing keeps values distinct and below the new count. |
| HashNumbering.InsertThenRemove | RunLoopSouceCode/CF-1153.18/CFBasicHash.c:1413-1465 | Removing the number just inserted restores the table. |
| HashNumbering.OrderKept | RunLoopSouceCode/CF-1153.18/CFBasicHash.c:1413-1465 | Neither operation changes the relative order of the other keys. |
| Machine.RoundUpCapacity | RunLoopSouceCode/CF-1153.18/CFArray.c:46-49 | A power of two above the requested capacity (or the minimum 4) and at most twice it. |
| Machine.RoundUpBound | RunLoopSouceCode/CF-1153.18/CFArray.c:46-49 | Below 2^30 requested, the 32-bit shift does not overflow. |
| ArrayDeque.MutableArray.constructor | RunLoopSouceCode/CF-1153.18/CFArray.c:402-408 | A new array is empty and owns nothing. |
| ArrayDeque.MutableArray.ReleaseBuckets | RunLoopSouceCode/CF-1153.18/CFArray.c:217-230 | Each value of the range is released exactly once and no other bucket changes. |
| ArrayDeque.MutableArray.ReleaseValues | RunLoopSouceCode/CF-1153.18/CFArray.c:197-240 | The range is released; the storage is given back exactly when all values were released and that was asked for. |
| ArrayDeque.MutableArray.Reposition | RunLoopSouceCode/CF-1153.18/CFArray.c:775-859 | Whichever layout is chosen, the values before and after the replaced range end up around a gap of the new size inside the buffer. |
| ArrayDeque.MutableArray.Reallocate | RunLoopSouceCode/CF-1153.18/CFArray.c:795-817 | The same in a new buffer. |
| ArrayDeque.MutableArray.MoveRight | RunLoopSouceCode/CF-1153.18/CFArray.c:819-826 | The same by moving the values after the range. |
| ArrayDeque.MutableArray.MoveLeft | RunLoopSouceCode/CF-1153.18/CFArray.c:827-835 | The same by moving the values before the range. |
| ArrayDeque.MutableArray.Recenter | RunLoopSouceCode/CF-1153.18/CFArray.c:836-858 | The same by two overlapping moves in the order that overwrites nothing still needed. |
| ArrayDeque.GapMoveC | RunLoopSouceCode/CF-1153.18/CFArray.c:819-826 | Moving the tail region by an overlapping move keeps both regions intact around the new gap. |
| ArrayDeque.GapMoveA | RunLoopSouceCode/CF-1153.18/CFArray.c:827-835 | Moving the head region by an overlapping move keeps both regions intact around the new gap. |
| ArrayDeque.MutableArray.ReplaceValues | RunLoopSouceCode/CF-1153.18/CFArray.c:922-993 | The contents become the values before the range, the new ones and the values after it; they stay inside the buffer, new values are retained and replaced ones released once each, and an array with both callbacks owns exactly its contents. |
| ArrayDeque.MutableArray.AppendValue | RunLoopSouceCode/CF-1153.18/CFArray.c:686-693 | Appends. |
| ArrayDeque.MutableArray.InsertValueAtIndex | RunLoopSouceCode/CF-1153.18/CFArray.c:722-729 | Inserts before the index. |
| ArrayDeque.MutableArray.RemoveValueAtIndex | RunLoopSouceCode/CF-1153.18/CFArray.c:753-760 | Removes the one value. |
| ArrayDeque.MutableArray.SetValueAtIndex | RunLoopSouceCode/CF-1153.18/CFArray.c:695-720 | Replaces the value at the index, or appends at the end; retained and released values balance. |
| ArrayDeque.MutableArray.ExchangeValuesAtIndices | RunLoopSouceCode/CF-1153.18/CFArray.c:733-751 | The two places have each other's values, every other place keeps its own, and nothing is retained or released. |
| ArrayDeque.MutableArray.RemoveAllValues | RunLoopSouceCode/CF-1153.18/CFArray.c:762-772 | The array is empty, every value was released once, and the buffer is given back. |
| ArrayDeque.MutableArray.ZSort | RunLoopSouceCode/CF-1153.18/CFArray.c:1006-1018 | No value of the range compares above a later one, the range holds the same values, and the rest of the array is untouched. |
| ArrayDeque.MutableArray.BSearchValues | RunLoopSouceCode/CF-1153.18/CFArray.c:1074-1100 | On a sorted range of any length: the first index whose value is not below the given one, or the end; every probe is in range. |
| ArrayDeque.Run | RunLoopSouceCode/CF-1153.18/CFArray.c:686-993 | After every run of append, insert, set, remove, exchange, replace and remove-all the array holds what a plain list would and owns exactly that. |
| Utf8Encoder.PairedPoints | RunLoopSouceCode/CF-1153.18/CFBuiltinConverters.c:961-976 | A string without unpaired surrogates is the UTF-16 form of its code points, all of them scalar values (sections 2.1 and 2.2 of RFC 2781). |
| Utf8Encoder.WritesEncoding | RunLoopSouceCode/CF-1153.18/CFBuiltinConverters.c:913-944 | The fall-through writes produce the table of section 3 of RFC 3629 for every code point. |
| Utf8Encoder.ToUTF8Core | RunLoopSouceCode/CF-1153.18/CFBuiltinConverters.c:923-944 | Writes exactly the encoding, or nothing when it does not fit, and no other byte. |
| Utf8Encoder.ReadPoint | RunLoopSouceCode/CF-1153.18/CFBuiltinConverters.c:955-975 | Reads one code point; stops at an unpaired surrogate only when strict. |
| Utf8Encoder.ToUTF8 | RunLoopSouceCode/CF-1153.18/CFBuiltinConverters.c:946-986 | For every output limit: leading code points are written while they fit, exactly their units are reported consumed, bytes beyond are untouched and measuring mode reports the same length. The run is the longest that fits if and only if no code point in it starts where the room, cut to 32 bits, is too small; below 2^32 it always is. |
| Utf8Encoder.LongestRun | RunLoopSouceCode/CF-1153.18/CFBuiltinConverters.c:923-986 | A run that stops at a code point that does not fit or is cut is the longest that fits exactly when none that fits is cut. |
| Utf8Encoder.RoomCut | RunLoopSouceCode/CF-1153.18/CFBuiltinConverters.c:923-986 | With room for 2^32 bytes nothing is written of a two-byte character. |
| Utf8Encoder.ToUTF8Len | RunLoopSouceCode/CF-1153.18/CFBuiltinConverters.c:1108-1123 | For all strings, the length of the encoding with unpaired surrogates encoded as themselves, modulo 2^32. |
| Utf8Encoder.LengthsAgree | RunLoopSouceCode/CF-1153.18/CFBuiltinConverters.c:946-1123 | What the strict converter measures is what the length function reports, modulo 2^32, if and only if it is below 2^32 and the bytes behind the first unpaired surrogate are a multiple of 2^32. Below 2^32 bytes in all that means no surrogate is unpaired, and the converter never measures more; without unpaired surrogates it means below 2^32 bytes. |
| Utf8Encoder.TrueLengths | RunLoopSouceCode/CF-1153.18/CFBuiltinConverters.c:946-1123 | Before anything wraps, the strict length is at most the full one, and equal to it exactly when no surrogate is unpaired. |
| Utf8Encoder.MeasureTwice | RunLoopSouceCode/CF-1153.18/CFBuiltinConverters.c:946-1123 | The two measurements of one string stand in that relation. |
| Utf8Encoder.LengthWrapped | RunLoopSouceCode/CF-1153.18/CFBuiltinConverters.c:1108-1123 | For 2^32 letters the converter measures 2^32 bytes and the length function reports none. |
| Utf8Encoder.LossHidden | RunLoopSouceCode/CF-1153.18/CFBuiltinConverters.c:1108-1123 | An unpaired surrogate before 2^32 - 3 letters: both report no bytes. |
| Utf8Encoder.LoneSurrogate | RunLoopSouceCode/CF-1153.18/CFBuiltinConverters.c:946-1123 | A lone high surrogate measures nothing in the strict converter and three bytes by the length function. |
| Utf8Decoder.IsLegalUTF8 | RunLoopSouceCode/CF-1153.18/CFBuiltinConverters.c:999-1011 | With the length the first byte announces: legal exactly when the bytes are one UTF8-char of the grammar in section 4 of RFC 3629. |
| Utf8Decoder.CharEncodes | RunLoopSouceCode/CF-1153.18/CFBuiltinConverters.c:1046-1056 | Decoding a UTF8-char gives a scalar value whose encoding it is. |
| Utf8Decoder.EncodesChar | RunLoopSouceCode/CF-1153.18/CFBuiltinConverters.c:923-944 | Every scalar value's encoding is a UTF8-char that decodes to it. |
| Utf8Decoder.Accumulate | RunLoopSouceCode/CF-1153.18/CFBuiltinConverters.c:1046-1056 | Summing the raw bytes and subtracting the table's offset gives the code point. |
| Utf8Decoder.ReadUnit | RunLoopSouceCode/CF-1153.18/CFBuiltinConverters.c:1026-1056 | One round of the loop: where a UTF8-char begins it is taken with its code point; otherwise a byte 0xA9, or when lossy a byte with all the bytes it announces behind it, is taken alone as U+FFFD; otherwise the loop stops. |
| Utf8Decoder.DecodeEncode | RunLoopSouceCode/CF-1153.18/CFBuiltinConverters.c:946-1106 | Decoding the encoding of any scalar values gives them back and consumes every byte. |
| Utf8Decoder.EncodeDecode | RunLoopSouceCode/CF-1153.18/CFBuiltinConverters.c:946-1106 | Encoding what well-formed bytes decode to gives the bytes back. |
| Utf8Decoder.EncodingsAreWellFormed | RunLoopSouceCode/CF-1153.18/CFBuiltinConverters.c:946-986 | Every encoding of scalar values is well formed under section 4 of RFC 3629. |
| Utf8Decoder.Chunks | RunLoopSouceCode/CF-1153.18/CFBuiltinConverters.c:1013-1106 | What the decoder consumes is a sequence of UTF8-chars and single 0xA9 bytes, and its code points are, in order, theirs and U+FFFD. |
| Utf8Decoder.ChunkCodes | RunLoopSouceCode/CF-1153.18/CFBuiltinConverters.c:1013-1106 | Any sequence of UTF8-chars and single 0xA9 bytes is read as their code points and U+FFFD, one for each. |
| Utf8Decoder.BadByte | RunLoopSouceCode/CF-1153.18/CFBuiltinConverters.c:1026-1043 | Where no UTF8-char begins, a byte that is passed gives one U+FFFD and takes one byte, and the reading stops at any other; which are passed is said by the bytes themselves. |
| Utf8Decoder.DecodeChunks | RunLoopSouceCode/CF-1153.18/CFBuiltinConverters.c:1013-1192 | Measuring and converting such a sequence gives the UTF-16 form of those code points. |
| Utf8Decoder.LoneCopyright | RunLoopSouceCode/CF-1153.18/CFBuiltinConverters.c:1034-1043 | A lone byte 0xA9 is one byte read and one unit 0xFFFD written. |
| Utf8Decoder.LossyTail | RunLoopSouceCode/CF-1153.18/CFBuiltinConverters.c:1034-1043 | So is a stray tail byte when the conversion may be lossy. |
| Unicode.JoinSum | RunLoopSouceCode/CF-1153.18/CFBuiltinConverters.c:961-966 | A surrogate pair stands for the sum section 2.2 of RFC 2781 gives. |
| Unicode.ValueSums | RunLoopSouceCode/CF-1153.18/CFBuiltinConverters.c:1046-1056 | Lead and tail bytes count in powers of 64, as in section 3 of RFC 3629. |
| Unicode.Examples | RunLoopSouceCode/CF-1153.18/CFBuiltinConverters.c:913-944 | Examples of section 7 of RFC 3629 and section 5 of RFC 2781, byte for byte. |
| Utf8Decoder.Maximal | RunLoopSouceCode/CF-1153.18/CFBuiltinConverters.c:1013-1106 | No such sequence at the front of the bytes is longer than what the decoder consumes. |
| Utf8Decoder.FromUTF8 | RunLoopSouceCode/CF-1153.18/CFBuiltinConverters.c:1013-1106 | For every output limit: as many code points of the reading as fit are written and no other unit changes. The bytes reported are exactly theirs, except precisely when one unit is left for a code point that needs two: then its bytes are reported too. `Chunks` and `BadByte` say what the reading is. |
| Utf8Decoder.TornPair | RunLoopSouceCode/CF-1153.18/CFBuiltinConverters.c:1071-1099 | The four bytes of U+10000 with room for one unit: nothing is written and four bytes are reported. |
| Utf8Decoder.FromUTF8Len | RunLoopSouceCode/CF-1153.18/CFBuiltinConverters.c:1125-1192 | The length of what the decoder produces without a limit, for all byte strings. |
| Utf8Decoder.EncodeThenDecode | RunLoopSouceCode/CF-1153.18/CFBuiltinConverters.c:946-1106 | Text without unpaired surrogates survives encoding and decoding if and only if no code point is cut, and always below 2^32 bytes. |
| Utf8Decoder.DecodeThenEncode | RunLoopSouceCode/CF-1153.18/CFBuiltinConverters.c:946-1106 | Well-formed bytes survive decoding and encoding if and only if no code point is cut, and always below 2^32 bytes. |
| Utf8Decoder.PointsOfScalars | RunLoopSouceCode/CF-1153.18/CFBuiltinConverters.c:961-976 | Reading the UTF-16 form of scalar values gives them back. |
| BinaryHeap.Heap.constructor | RunLoopSouceCode/CF-1153.18/CFBinaryHeap.c:212-260 | A new heap is empty and in order. |
| BinaryHeap.Heap.Copy | RunLoopSouceCode/CF-1153.18/CFBinaryHeap.c:266-269 | A heap of the same values, in order. |
| BinaryHeap.Heap.Grow | RunLoopSouceCode/CF-1153.18/CFBinaryHeap.c:355-365 | More buckets, the same contents. |
| BinaryHeap.SiftUp | RunLoopSouceCode/CF-1153.18/CFBinaryHeap.c:383-396 | Moving the hole up restores heap order and adds exactly the value. |
| BinaryHeap.SiftDown | RunLoopSouceCode/CF-1153.18/CFBinaryHeap.c:413-429 | Moving the hole down restores heap order and keeps the values. |
| BinaryHeap.RootLeast | RunLoopSouceCode/CF-1153.18/CFBinaryHeap.c:308-312 | In heap order the root is at most every value. |
| BinaryHeap.Heap.AddValue | RunLoopSouceCode/CF-1153.18/CFBinaryHeap.c:367-396 | The collection gains exactly the value; heap order and ownership are kept. |
| BinaryHeap.Heap.Place | RunLoopSouceCode/CF-1153.18/CFBinaryHeap.c:383-396 | In a store with room the value rises to its place and is retained. |
| BinaryHeap.Heap.GetMinimumIfPresent | RunLoopSouceCode/CF-1153.18/CFBinaryHeap.c:314-319 | A value is returned exactly when there is one, and it is a minimum. |
| BinaryHeap.Heap.RemoveMinimumValue | RunLoopSouceCode/CF-1153.18/CFBinaryHeap.c:398-430 | Exactly the root goes and is released; an empty heap stays. |
| BinaryHeap.GetValues | RunLoopSouceCode/CF-1153.18/CFBinaryHeap.c:321-337 | The values, none comparing above a later one, each as often as the heap holds it; the heap itself is unchanged. |
| BinaryHeap.Run | RunLoopSouceCode/CF-1153.18/CFBinaryHeap.c:367-430 | Every run of additions and removals behaves as a priority queue: what is removed is a minimum at that moment, and order and ownership hold throughout. |
| BigNumber.AbsoluteLessThan | RunLoopSouceCode/CF-1153.18/CFBigNumber.c:435-445 | True exactly when the first magnitude is smaller. |
| BigNumber.Compare | RunLoopSouceCode/CF-1153.18/CFBigNumber.c:416-431 | For all digits: the signs decide, or else the top differing digit. For proper numbers this is the order of the values if and only if the operands are not two zeros of different sign. |
| BigNumber.DigitOrderRight | RunLoopSouceCode/CF-1153.18/CFBigNumber.c:416-431 | On digits an addition can leave, the top differing digit gives the order of the magnitudes if and only if the digits below it do not make up for a difference of one. |
| BigNumber.ProperOrder | RunLoopSouceCode/CF-1153.18/CFBigNumber.c:416-431 | Proper digits never do. |
| BigNumber.FullDigitCompares | RunLoopSouceCode/CF-1153.18/CFBigNumber.c:416-431 | The sum 999999999 + 1 compares below one billion. |
| BigNumber.Neg | RunLoopSouceCode/CF-1153.18/CFBigNumber.c:448-463 | The negated value, also in place; zero keeps its sign, any other number changes it. |
| BigNumber.AddDigits | RunLoopSouceCode/CF-1153.18/CFBigNumber.c:468-480 | Same-sign addition is exact up to the carry out of the fifth digit, also in place; a digit comes out as one billion exactly where the digit sum with carry is one billion. |
| BigNumber.SubDigits | RunLoopSouceCode/CF-1153.18/CFBigNumber.c:492-501 | Subtracting the smaller magnitude is exact, leaves no borrow and proper digits, also in place. |
| BigNumber.Add | RunLoopSouceCode/CF-1153.18/CFBigNumber.c:465-509 | Both branches together: exact, with the carry as overflow, in place or not. With equal signs the sum is a proper number if and only if no digit sum with carry is exactly one billion. |
| BigNumber.Sub | RunLoopSouceCode/CF-1153.18/CFBigNumber.c:511-515 | Exact subtraction, with the carry as overflow. The digits are proper if and only if the magnitudes are subtracted or no digit sum with carry is one billion. |
| BigNumber.FullDigit | RunLoopSouceCode/CF-1153.18/CFBigNumber.c:471-476 | 999999999 + 1 has the right value, held in the improper digit one billion. |
| BigNumber.NegativeZero | RunLoopSouceCode/CF-1153.18/CFBigNumber.c:502-506 | Minus five plus five is a zero that compares below zero. |
| BigNumber.InitWithInt32 | RunLoopSouceCode/CF-1153.18/CFBigNumber.c:110-120 | The value, for every 32-bit integer. |
| BigNumber.InitWithInt64 | RunLoopSouceCode/CF-1153.18/CFBigNumber.c:122-135 | The value, for every 64-bit integer. |
| BigNumber.InitWithInt128 | RunLoopSouceCode/CF-1153.18/CFBigNumber.c:138-157 | The value, for every 128-bit integer. |
| BigNumber.GetInt32 | RunLoopSouceCode/CF-1153.18/CFBigNumber.c:227-234 | With wrapping arithmetic, the value exactly when it is in range. |
| BigNumber.GetInt64 | RunLoopSouceCode/CF-1153.18/CFBigNumber.c:236-244 | With wrapping arithmetic, the value exactly when it is in range. |
| BigNumber.GetInt128 | RunLoopSouceCode/CF-1153.18/CFBigNumber.c:247-257 | With wrapping arithmetic, the value exactly when it is in range. |
| BigNumberText.NumberCreate | RunLoopSouceCode/CF-1153.18/CFBigNumber.c:366-414 | Up to 64 bits a number of the same value in the fewest bits that hold it (one size more for -128 and -32768); beyond 128 bits none; between, the two words stored are the low and the high half, and the number has the value if and only if they are equal. |
| BigNumberText.ExchangedHalves | RunLoopSouceCode/CF-1153.18/CFBigNumber.c:38-41 | Read as high half and low half, the words of a 128-bit integer in little-endian order give its value if and only if they are equal. |
| BigNumberText.HalvesExchanged | RunLoopSouceCode/CF-1153.18/CFBigNumber.c:401-410 | The number created for 2^63 has the value -2^127. |
| BigNumberText.InitWithNumber | RunLoopSouceCode/CF-1153.18/CFBigNumber.c:306-364 | Reads a stored number's value. |
| BigNumberText.StoreThenRead | RunLoopSouceCode/CF-1153.18/CFBigNumber.c:295-414 | Creating a number and reading it gives the value back if and only if it has 64 bits or equal halves. |
| BigNumberText.ToCString | RunLoopSouceCode/CF-1153.18/CFBigNumber.c:518-538 | For all five-digit numbers, improper digits included: a minus or, if asked for, a plus, then digits. Zero padded, the text fills the buffer and ends in the 45 digits, zeros before them, or in as many low digits as there are places; otherwise the leading zeros but for a last digit are gone and the text is cut on the right if there is no room. With room for the significant digits they spell the number if and only if every digit is below one billion. |
| BigNumberText.KeptNum | RunLoopSouceCode/CF-1153.18/CFBigNumber.c:526-527 | The 45 characters kept of the five printed groups spell the magnitude if and only if every digit is below one billion, and never more than it. |
| BigNumberText.PrintSum | RunLoopSouceCode/CF-1153.18/CFBigNumber.c:465-538 | The printed sum of two numbers of one sign is right if and only if it is below 10^45 and no digit sum with carry is one billion. |
| BigNumberText.SumMisprinted | RunLoopSouceCode/CF-1153.18/CFBigNumber.c:465-538 | The text of 999999999 + 1 does not spell one billion. |
| BigNumberText.FromCString | RunLoopSouceCode/CF-1153.18/CFBigNumber.c:540-571 | For all texts the digits are what groups of nine characters from the right read as. For an optional sign and decimal digits the magnitude is the text's number if and only if its top group fits 32 bits, otherwise exactly that group is saturated and cut, and the digits are proper below 10^45. |
| BigNumberText.LongText | RunLoopSouceCode/CF-1153.18/CFBigNumber.c:567-568 | A one and 46 zeros is read as 1410065408 followed by 36 zeros. |
| BigNumberText.PrintThenParse | RunLoopSouceCode/CF-1153.18/CFBigNumber.c:518-571 | With room for the significant digits, printing and parsing gives back the sign, negative zero included, and the digits if and only if each is below one billion. |
| BitVector.MaskBits | RunLoopSouceCode/CF-1153.18/CFBitVector.c:107-113 | The mask has exactly the bits from the bottom to the top bit. |
| BitVector.CountBucket | RunLoopSouceCode/CF-1153.18/CFBitVector.c:323-333 | Counting by nibbles counts the matching bits under the mask. |
| BitVector.MapPart | RunLoopSouceCode/CF-1153.18/CFBitVector.c:291-300 | A masked write maps exactly the bits of its range in one bucket. |
| BitVector.InternalMap | RunLoopSouceCode/CF-1153.18/CFBitVector.c:284-316 | Part bucket, whole buckets and part bucket together map exactly the bits of the range, for any range, and count exactly the matching ones. |
| BitVector.Vector.constructor | RunLoopSouceCode/CF-1153.18/CFBitVector.c:50-53 | A new vector has no bits. |
| BitVector.Vector.GetCountOfBit | RunLoopSouceCode/CF-1153.18/CFBitVector.c:335-344 | The number of places in the range whose bit is the given one; no bit changes. |
| BitVector.Vector.SetBits | RunLoopSouceCode/CF-1153.18/CFBitVector.c:501-511 | Place by place: the bits of the range get the value, all others stay. |
| BitVector.Vector.FlipBits | RunLoopSouceCode/CF-1153.18/CFBitVector.c:486-492 | Place by place: the bits of the range are inverted, all others stay. |
| BitVector.Vector.SetAllBits | RunLoopSouceCode/CF-1153.18/CFBitVector.c:513-528 | Every bit gets the value. |
| BitVector.Vector.Grow | RunLoopSouceCode/CF-1153.18/CFBitVector.c:437-446 | More buckets, the same bits. |
| BitVector.Vector.SetCount | RunLoopSouceCode/CF-1153.18/CFBitVector.c:456-473 | Growing appends zero bits and keeps the others; shrinking drops bits. |
| BitVector.FlipTwice | RunLoopSouceCode/CF-1153.18/CFBitVector.c:486-492 | Flipping twice restores the bits. |
| PlistFormat.ReadEntry | RunLoopSouceCode/CF-1153.18/CFBinaryPList.c:840-841 | Reads one entry of the offset table. |
| PlistFormat.ReadCount | RunLoopSouceCode/CF-1153.18/CFBinaryPList.c:1193-1201 | A count from the marker's low half or the integer after it, at most LONG_MAX, ends inside the object table. |
| PlistFormat.DecodeRefs | RunLoopSouceCode/CF-1153.18/CFBinaryPList.c:1439-1457 | A container's reference list fits the object table and its size in memory does not overflow; a dictionary's is even. |
| PlistRoundTrip.TextBack | RunLoopSouceCode/CF-1153.18/CFBinaryPList.c:373-403 | ASCII and UTF-16 strings are read back unit for unit. |
| PlistRoundTrip.NumberBack | RunLoopSouceCode/CF-1153.18/CFBinaryPList.c:408-454 | Every 64-bit integer is read back, sign included. |
| PlistFlatten.Flattener.FlattenChildren | RunLoopSouceCode/CF-1153.18/CFBinaryPList.c:566-584 | The children are flattened in order; the invariants of the numbering are kept, and the entries added are bounded by the children's nodes and bytes. |
| PlistWriter.AppendScalar | RunLoopSouceCode/CF-1153.18/CFBinaryPList.c:456-480 | Booleans, numbers, strings, data and dates in their encodings; anything else is refused. |
| PlistWriter.WriteObjects | RunLoopSouceCode/CF-1153.18/CFBinaryPList.c:641-707 | Header, bodies, offset table and trailer make up the file image and its length; zero is returned exactly on an unwritable object or a stream error. |
| BasicHash.Table.WriteSlot | RunLoopSouceCode/CF-1153.18/CFBasicHash.c:1271-1277 | Value and key are written together and displaced ones released. |
| BasicHash.MoveAll | RunLoopSouceCode/CF-1153.18/CFBasicHash.c:1199-1232 | The copying loop moves every live entry, with its count, into a cleared table in which each can be found. |
| BasicHash.MoveOne | RunLoopSouceCode/CF-1153.18/CFBasicHash.c:1201-1226 | One entry moves to an empty bucket on its probe path; nothing moved before is lost. |
| HashRuns.PerformOp | RunLoopSouceCode/CF-1153.18/CFBasicHash.c:1251-1411 | Each operation has its prescribed effect. |
| HashRuns.Scan | RunLoopSouceCode/CF-1153.18/CFBasicHash.c:991-1002 | The loop with its early stop visits what the enumeration lists. |
| HashEqual.CountAll | RunLoopSouceCode/CF-1153.18/CFBasicHash.c:932-939 | The counting loop sums the counts of the live entries modulo 2^64. |
| HashEqual.ScanFirst | RunLoopSouceCode/CF-1153.18/CFBasicHash.c:975-988 | The scan with its early stop decides whether every entry of the first table agrees with the second. |
| HashEqual.CrossOut | RunLoopSouceCode/CF-1153.18/CFBasicHash.c:971-989 | Crossing out partners one by one leaves exactly the unclaimed entries and the difference of the totals. |
| HashNumbering.RehashFirst | RunLoopSouceCode/CF-1153.18/CFBasicHash.c:1423-1427 | A table at capacity is rehashed before renumbering and denotes the same. |
| ArrayDeque.MemMove | RunLoopSouceCode/CF-1153.18/CFArray.c:824-825 | An overlapping move copies the old contents of the source region and changes nothing else. |
| ArrayDeque.MutableArray.MakeGap | RunLoopSouceCode/CF-1153.18/CFArray.c:956-980 | Whatever the state of the store, the range is released and a gap of the new size lies between the kept regions. |
| ArrayDeque.MutableArray.FillGap | RunLoopSouceCode/CF-1153.18/CFArray.c:981-990 | Copying the new values into the gap completes the splice. |
| ArrayDeque.MutableArray.GetValueAtIndex | RunLoopSouceCode/CF-1153.18/CFArray.c:586-592 | The value at the index. |
| ArrayDeque.MutableArray.UpdateValue | RunLoopSouceCode/CF-1153.18/CFArray.c:704-718 | One value is replaced, the new one retained and the old one released. |
| ArrayDeque.MutableArray.BubblePass | RunLoopSouceCode/CF-1153.18/CFArray.c:1009-1016 | One pass moves a largest value to the end of the unsorted part and keeps the values. |
| ArrayDeque.MutableArray.Halve | RunLoopSouceCode/CF-1153.18/CFArray.c:1088-1099 | Halving a power of two finds the last place below the value without leaving the range. |
| Utf8Encoder.Emit | RunLoopSouceCode/CF-1153.18/CFBuiltinConverters.c:958-980 | One code point is written or measured, or refused exactly when it does not fit the room as given or as cut to 32 bits. |
| Utf8Decoder.Emit16 | RunLoopSouceCode/CF-1153.18/CFBuiltinConverters.c:1071-1099 | One code point is written or measured in UTF-16, or refused exactly when a pair does not fit. |
| Utf8Decoder.Encode | RunLoopSouceCode/CF-1153.18/CFBuiltinConverters.c:946-986 | Measuring and then converting encodes the whole string up to an unpaired surrogate, if and only if nothing is cut by the 32-bit room. |
| Utf8Decoder.Decode | RunLoopSouceCode/CF-1153.18/CFBuiltinConverters.c:1013-1192 | Measuring and then converting decodes everything the decoder can consume. |
| BinaryHeap.LowerChild | RunLoopSouceCode/CF-1153.18/CFBinaryHeap.c:416-423 | The child the hole moves to is not above the other. |
| BinaryHeap.TakeRoot | RunLoopSouceCode/CF-1153.18/CFBinaryHeap.c:404-429 | The root is taken out and the rest is a heap again. |
| BitVector.Map | RunLoopSouceCode/CF-1153.18/CFBitVector.c:448-454 | Each mapper acts on every bit by itself. |
| BitVector.MapWhole | RunLoopSouceCode/CF-1153.18/CFBitVector.c:305-309 | A whole bucket is mapped bit by bit. |
| BigNumberText.Between | RunLoopSouceCode/CF-1153.18/CFBigNumber.c:383-385 | The two comparisons decide membership between a negative and a positive limit, negative zero included. |
| BigNumberText.ShowDigits | RunLoopSouceCode/CF-1153.18/CFBigNumber.c:528-537 | Copies exactly the digits that fit: padded and cut on the left, or stripped and cut on the right. |
| BigNumberText.ShownSpells | RunLoopSouceCode/CF-1153.18/CFBigNumber.c:528-537 | What a buffer with room for the significant digits shows spells the number. |
| BigNumberText.Strip | RunLoopSouceCode/CF-1153.18/CFBigNumber.c:533-535 | Skipping leading zeros leaves the significant digits, at least one. |
| BigNumberText.ParseDigits | RunLoopSouceCode/CF-1153.18/CFBigNumber.c:560-569 | Groups of nine from the right, whatever the characters; of decimal digits they spell the number with the top group saturated and cut to 32 bits. |

## Left out

- Key-path filtered reading and dictionary lookup in property lists: they rest on key-path and string helpers that are not part of this model.
- Mutable reading of property lists, and merging of equal keys or members when a dictionary or set is built: both are their lists as stored.
- Sets and null in the writer's input, and files of 2^32 objects or more: the writer cannot produce them.
- PlistBuffer.WriteBuffer.WriteBytes: a caller-supplied byte block and a missing stream are not modelled; the writer sets neither up (lines 644-651 of CFBinaryPList.c).
- Strings as objects: a string is its UTF-16 code units; conversion to and from other encodings inside the property list code is not modelled. Eight-bit strings are read as Latin-1, as the code does.
- Double and exponential probing, indirect keys and cached hashes in the hash table.
- BasicHash.Table: the stores are sequences held in fields, so aliasing between them is not captured.
- BasicHash.Table.Add: a new key for which neither the buckets at hand nor the table of sizes have room is not modelled.
- HashNumbering.AddIntValueAndInc: values are plain integers that are not retained.
- HashNumbering.RemoveIntValueAndDec: the key removed is held once; otherwise its count stays behind, as `CountLeftBehind` states, and the table is no longer one of this model.
- HashRuns.Apply: the block is a function of the entry; a block with state of its own is not modelled.
- ArrayDeque.MutableArray: capacities are computed by a 32-bit shift, so counts stay below 2^30; setting a capacity by hand, immutable arrays and quicksort are left out.
- Utf8Decoder.FromUTF8: decomposition, the lenient flag and the file-system flag are left out.
- BinaryHeap.Heap: the callback result is taken by its sign; heap equality, which compares results in an unusual way, is left out.
- BigNumber.GetInt64: the unsigned, 8-bit and 16-bit conversions, which add nothing to the signed ones.
- PlistRoundTrip.WriteThenParse: the bounds on nodes and bytes are those of the tree without sharing.
- BigNumberText.NumberCreate: for little-endian 64-bit machines; floating-point numbers are left out.
- BigNumberText.ToCString: a buffer with no room after the sign, which gets no terminating NUL.
- BitVector.Vector: reading ranges of bits into a buffer and equality, which looks at bits past the count.
- Allocation failure, garbage-collector branches, Objective-C dispatch, bundles, preferences and all platform plumbing.
