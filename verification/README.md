# Verification of the Arrow columnar engine

This project models the columnar engine of Apache Arrow as it is vendored in the repository, and proves that its bit- and
offset-level code computes what the Arrow Columnar Format says arrays mean. Six parts are covered.

* **Bitmaps** (`Bits`, `Bitmaps`, `BitUtil`). One function, `Bits.Overwrite`, says what writing bits into a bitmap does: one
  bit at a time, in order. Every writer, whether it moves bits, bytes or 64-bit words, is proved to give exactly its result,
  at any pair of bit offsets and inside its slices; every counter is proved to count the bits of a range.
* **Array data and concatenation** (`ArrayData`, `ConcatBuffers`, `ConcatSpec`, `ConcatLayouts`, `Concat`). `ArrayData.Meaning`
  gives every array, sliced and nested in any way, its sequence of optional values. `concat` succeeds exactly on the inputs that
  fit, and then the meaning of its result is the meanings of its inputs end to end; a concatenation of arrays is an array again.
* **Comparison and chunk cursors** (`Arrays`, `Compare`, `ChunkedArrays`, `ChunkedCompare`, `TableReaders`). Equality of arrays,
  the cursors that walk two differently chunked columns in lock-step, slices of chunked arrays and the table reader, against the
  same meanings; the runs of the cursors are proved to end.
* **Builders** (`Memory`, `Builders`, `BufferBuilders`, `BinaryBuilders`). Builders refine the sequence of what was appended to them,
  over any run.
* **Reference counts** (`RefCounts`, `RefCountRules`, `RefCountMethods`). Retain, release, `NewData`, `NewSliceData` and `Reset`
  are programs of atomic steps, in the order of the source, that any number of goroutines run at the same time. Under three rules
  no step of any interleaving touches a freed resource, nothing is freed twice or while it is referred to, and nothing leaks; for
  each rule there is a run that breaks it and goes wrong.
* **Encodings** (`CMetadata`, `Text`, `CSchemas`, `Decimal128`). Exporting to the C data interface and importing again, and
  128-bit integers in two limbs.

`Seqs`, `Arith`, `Int32View` and `Wrappers` hold what several parts share.

Conventions. A Go `int` is 64 bits wide; where a sum can wrap, the wrap is written out (`ConcatBuffers.WrapAdd`, `ToInt32`). A slice
that is only read is a sequence, a slice that is written is an array or a field. Where the source panics or returns an error the
model returns a failure, or demands of the caller what the source demands. Words are little-endian. A bitmap or values buffer of a
finished array is a value: the bytes it holds, or none for a nil buffer.

Eight laws turned out to hold only on a condition. They are proved with their exact conditions, most of them next to an input on
which the law fails; for `Reset`, every rule comes with a run that breaks it:

* `Concatenate` gives the concatenation exactly when the lengths add up within an int; arrays without a bitmap are not checked for
  that (`Concat.Concatenate`, `Concat.WrappedLengths`).
* `ArrayEqual` compares values that null struct slots hide, except in structs and lists of nothing but nulls. It is equality of type
  and values if and only if the two sides also agree in what they hide, which `Compare.HiddenAgree` says at every depth
  (`Compare.ArrayEqual`, `Compare.HiddenValuesDiffer`). Data agrees with itself (`Compare.SelfAgree`), and without null struct slots
  nothing is hidden (`Compare.DenseAgree`).
* `ChunkedEqual` is false for two distinct empty columns. Otherwise it is equality of type and values if and only if the columns agree
  in what they hide between any two chunk boundaries of either side (`ChunkedCompare.ChunkedEqual`), so that the answer depends on the
  chunks (`ChunkedCompare.ChunksMatter`), unless no struct slot is null (`ChunkedCompare.DenseColumns`).
* `NewSliceData` and `Chunked.NewSlice` promise to refuse every range outside their argument. They do if and only if the start is not
  negative or the range is refused anyway for ending behind the argument or before its start. A negative start reaches back in front of
  a slice (`ArrayData.NewSliceMeaning`, `ArrayData.SliceSlice`, `ArrayData.NegativeStart`, `ChunkedArrays.NewSlice`,
  `ChunkedArrays.NegativeSlice`).
* `Reset` releases the old references before it assigns the new lists. So the object names resources that may have been freed, and
  sharing it between goroutines is safe under these rules: nothing starts to read an object between the first release and the
  assignment of its `Reset`, no `Reset` starts to release from an object that is being read, and two calls of `Reset` for one object do
  not overlap (`RefCounts.RunSafe`, `RefCounts.FreedOnceAndOnlyUnused`; without the rules `RefCountRules.StaleRead`,
  `RefCountRules.TornRead`, `RefCountRules.OverlappingResets`). Operations own what they read, and so keep it while they run.
* A table reader gives exactly as many rows as the table has if and only if the rows after the last chunk boundary are a multiple of
  the step; columns longer than the table can make it give more (`TableReaders.ReadAll`, `TableReaders.LongColumnOverruns`).
* Metadata survives its encoding if and only if that is at most 2^31-1 bytes long (`CMetadata.DecodeEncode`).
* Fields with a NUL in their name, time zones that are empty or hold a colon or NUL, units that a time type does not have and
  non-nullable map items do not survive the C data interface; everything else does (`CSchemas.RoundTrip`, `CSchemas.EmptyZoneLost`,
  `CSchemas.NonNullableItemsLost`).

`IsNull` and `NullN` agree except on arrays of nulls, where `IsNull` never holds (`Arrays.NullNCountsNulls`).

## Model

| member | source | states |
|---|---|---|
| `Bits.OverwriteBits` | arrow/bitutil/bitutil.go:63-69 | after writing a run of bits, bits inside the range are the ones written and all others are as before |
| `Bits.OverwriteUnique` | arrow/bitutil/bitutil.go:63-69 | bytes that agree with such a write bit by bit are its result |
| `Bits.OverwriteConcat` | arrow/bitutil/bitutil.go:63-69 | writing two runs one behind the other is writing their concatenation |
| `Bits.OverwriteReadBack` | arrow/bitutil/bitutil.go:51-69 | reading the range written gives back the bits written |
| `Bits.LoadBit` | arrow/bitutil/bitutil.go:152-162 | bit k of a little-endian word loaded from eight bytes is bit k of those bytes |
| `Bits.StoreBit` | arrow/bitutil/bitmaps.go:314-339 | bit k of the eight bytes a word is stored to is bit k of the word |
| `Bits.ShiftsAreOperators` | arrow/bitutil/bitmaps.go:215-236 | shifting one place at a time is shifting by the amount, for every amount below 64 |
| `Bits.BitAtShift` | arrow/bitutil/bitutil.go:51 | bit i of a slice is the lowest bit of its byte i/8 shifted right by i%8 |
| `Bitmaps.BitmapReader.constructor` | arrow/bitutil/bitmaps.go:39-51 | a reader starts at the first bit of its range |
| `Bitmaps.BitmapReader.Set` | arrow/bitutil/bitmaps.go:54-56 | the current bit of the range, read from the cached byte |
| `Bitmaps.BitmapReader.Next` | arrow/bitutil/bitmaps.go:64-74 | moves on by one bit and never reads behind the range |
| `Bitmaps.ReadByBits` | arrow/bitutil/bitmaps.go:39-74 | a bit reader run to its end gives the bits of the range in order |
| `Bitmaps.BitmapWriter.constructor` | arrow/bitutil/bitmaps.go:95-106 | a writer starts with the bitmap unchanged |
| `Bitmaps.BitmapWriter.Set` | arrow/bitutil/bitmaps.go:121 | the bitmap, once flushed, has the current bit set and no other changed |
| `Bitmaps.BitmapWriter.Clear` | arrow/bitutil/bitmaps.go:122 | the bitmap, once flushed, has the current bit clear and no other changed |
| `Bitmaps.BitmapWriter.Next` | arrow/bitutil/bitmaps.go:125-136 | moving on loses nothing of the byte in progress |
| `Bitmaps.BitmapWriter.Finish` | arrow/bitutil/bitmaps.go:169-173 | after flushing, the slice is the bitmap that was written |
| `Bitmaps.WriteByBits` | arrow/bitutil/bitmaps.go:95-173 | a bit writer fed a sequence of bits writes exactly that sequence at its start |
| `Bitmaps.BitmapWordReader.constructor` | arrow/bitutil/bitmaps.go:188-209 | the numbers of words and trailing bytes cover the range; all loads are inside the slice |
| `Bitmaps.BitmapWordReader.NextWord` | arrow/bitutil/bitmaps.go:215-236 | the next word holds the next 64 bits of the range, across byte boundaries, with its look-ahead in bounds |
| `Bitmaps.BitmapWordReader.NextTrailingByte` | arrow/bitutil/bitmaps.go:244-275 | the next byte holds the next bits, eight unless it is the last |
| `Bitmaps.ReadByWords` | arrow/bitutil/bitmaps.go:188-278 | Words and then TrailingBytes steps give exactly the bits that a bit reader gives |
| `Bitmaps.BitmapWordWriter.constructor` | arrow/bitutil/bitmaps.go:294-310 | a word writer keeps the bits before its start |
| `Bitmaps.BitmapWordWriter.PutNextWord` | arrow/bitutil/bitmaps.go:314-339 | writes exactly the 64 bits of the word at the position, keeping all other bits of the two words it touches |
| `Bitmaps.BitmapWordWriter.PutNextTrailingByte` | arrow/bitutil/bitmaps.go:343-373 | writes exactly the valid bits of the byte at the position |
| `Bitmaps.CopyBitmap` | arrow/bitutil/bitmaps.go:377-424 | for any offsets and length, bit dstOffset+i becomes bit srcOffset+i and no other bit changes; all accesses are in bounds |
| `BitUtil.SetBit` | arrow/bitutil/bitutil.go:57 | sets one bit and changes no other |
| `BitUtil.ClearBit` | arrow/bitutil/bitutil.go:60 | clears one bit and changes no other |
| `BitUtil.CountSetBits` | arrow/bitutil/bitutil.go:72-96 | the number of set bits in any range, through words, bytes and single bits |
| `BitUtil.CountSetBitsWithOffset` | arrow/bitutil/bitutil.go:98-134 | the same from any bit offset: head bits, words, bytes and tail bits |
| `BitUtil.SetBitsTo` | arrow/bitutil/bitutil.go:174-220 | fills exactly the range, as a loop of single writes does, without touching a byte behind an aligned end |
| `BitUtil.NextPowerOf2` | arrow/bitutil/bitutil.go:42 | the power of two above x and at most twice x; powers of two themselves are doubled |
| `Int32View.Int32RoundTrip` | arrow/array/bufferbuilder_numeric.gen.go:42-58 | int32 values read back from the bytes they are stored in are the same values |
| `Int32View.BytesRoundTrip` | arrow/array/bufferbuilder_numeric.gen.go:42-58 | any bytes are the bytes of the int32 values read from them |
| `Int32View.Int32AtBytes` | arrow/array/bufferbuilder_numeric.gen.go:42-58 | value k of a byte slice is bytes 4k to 4k+3, the lowest first, as a two's complement number |
| `Int32View.ToInt32Wraps` | arrow/array/binarybuilder.go:209-213 | the conversion to int32 keeps a number modulo 2^32 and ends in the range of int32 |
| `ArrayData.NewSliceMeaning` | arrow/array/data.go:150-182 | accepts exactly the ranges that end inside the data, whatever the sign of the start; refuses all that is outside if and only if the start is not negative or the guard refuses anyway; the window moves by the start over the same buffers and children, with null count 0 where that was known and -1 otherwise; an accepted range inside slices the meaning and is well-formed |
| `ArrayData.SliceSlice` | arrow/array/data.go:150-182 | a slice of a slice is one slice with added offsets, also for a negative start, which reaches back in front of the first slice |
| `ArrayData.NegativeStart` | arrow/array/data.go:150-182 | a slice with a negative start that is accepted, and whose null count is wrong |
| `ArrayData.ValidBitIs` | arrow/array/array.go:113-119 | a slot is valid unless its bit, at the slice's offset, is clear in the bitmap; without a bitmap every slot is, and in an array of nulls none |
| `ArrayData.BooleanSlotIs` | arrow/array/boolean.go:48-53 | a boolean slot is its bit at the slice's offset |
| `ArrayData.FixedWidthSlotIs` | arrow/array/fixedsize_binary.go:44-52 | a fixed-width slot is the bytes from (offset+i)*w on, w of them |
| `ArrayData.BinarySlotIs` | arrow/array/binary.go:44-50 | a binary slot is the values from its offset to the next |
| `ArrayData.ChildRange` | arrow/array/fixed_size_list.go:66-73 | the child slots of a list slot lie inside the child; which they are is stated by ListSlotIs |
| `ArrayData.ListSlotIs` | arrow/array/list.go:66-71 | a list or map slot is the child slots from its offset, as stored in the offsets buffer, to the next offset; a slot of a list of n is the n child slots from (offset+i)*n on |
| `ArrayData.StructFieldIs` | arrow/array/struct.go:94-106 | field k of a struct slot is the slot of child k at the parent's offset |
| `Arrays.Array.constructor` | arrow/array/array.go:121-133 | an array keeps its data and its bitmap; arrays of nulls drop the bitmap and know their count |
| `Arrays.MapEntriesHaveKeys` | arrow/array/map.go:48-68 | the entries of a map that is accepted are pairs, none of them null and none with a null key |
| `Arrays.Array.NullN` | arrow/array/array.go:94-99 | the exact null count, remembered in the data |
| `Arrays.NullNCountsNulls` | arrow/array/array.go:94-119 | NullN is the number of indices where IsNull holds, except for arrays of nulls, where IsNull never holds |
| `ConcatBuffers.AddOvfExact` | arrow/array/concat.go:335-338 | for any two ints, negative ones too, the carry formula reports overflow exactly when the sum exceeds 2^63-1; a sum that fits is exact |
| `ConcatBuffers.ConcatBitmaps` | arrow/array/concat.go:341-367 | fails exactly when the lengths do not add up within an int; otherwise the bits are those of the ranges in order, a nil bitmap counting as all ones, in as few bytes as hold them |
| `ConcatBuffers.ConcatBytes` | arrow/array/concat.go:153-167 | the bytes of the buffers end to end |
| `ConcatBuffers.ConcatOffsets` | arrow/array/concat.go:174-222 | fails exactly when the value ranges together exceed 2^31-1; otherwise gives the joined offsets and each input's value range |
| `ConcatBuffers.JoinedOffsetAt` | arrow/array/concat.go:174-222 | every slot keeps its width and begins where its values come to lie in the joined ranges |
| `ConcatBuffers.JoinedOffsetsOk` | arrow/array/concat.go:174-222 | joined offsets start at 0, never go down and end at the sum of the ranges |
| `ConcatSpec.NullsExact` | arrow/array/concat.go:226-244 | the null count of a concatenation is unknown or exact |
| `ConcatSpec.HeaderValidity` | arrow/array/concat.go:226-244 | the validity of a concatenation is the validities of its inputs end to end |
| `ConcatSpec.JoinedMeaning` | arrow/array/concat.go:226-325 | joined validity and agreeing valid slots make the joined meaning |
| `ConcatLayouts.BooleanConcat` | arrow/array/concat.go:248-253 | boolean layouts: joined bit ranges mean the joined values |
| `ConcatLayouts.FixedConcat` | arrow/array/concat.go:254-255 | fixed-width layouts: joined bytes mean the joined values |
| `ConcatLayouts.BinaryConcat` | arrow/array/concat.go:256-262 | binary layouts: joined offsets over joined value ranges mean the joined values |
| `ConcatLayouts.ListConcat` | arrow/array/concat.go:263-278 | list and map layouts: joined offsets over a joined child mean the joined lists |
| `ConcatLayouts.FixedListConcat` | arrow/array/concat.go:279-289 | fixed-size list layouts: a child joined at multiples of the width means the joined lists |
| `ConcatLayouts.StructConcat` | arrow/array/concat.go:290-303 | struct layouts: children joined by the parents' ranges mean the joined rows |
| `Concat.Concat` | arrow/array/concat.go:226-325 | for every nested type: success exactly when bitmaps and offsets fit, and the meaning is the concatenation of the meanings when lengths fit; recursion ends |
| `Concat.Concatenate` | arrow/array/concat.go:35-57 | refuses no arrays and arrays of different types; a success is the concatenation if and only if the lengths fit an int, and MakeFromData accepts it; fits or not, at every level the window starts at 0, the length is the sum modulo 2^64, and there is a bitmap exactly when the null count is not 0 |
| `Concat.AssembledConstructible` | arrow/array/concat.go:35-57 | at every nesting, what is assembled from arrays is an array again: unknown null counts come with a bitmap, and maps keep entries and keys without nulls |
| `Concat.WrappedLengths` | arrow/array/concat.go:227-247 | two arrays of nulls that are concatenated without an error although their lengths do not fit |
| `Compare.BaseArrayEqual` | arrow/array/compare.go:520-532 | true exactly for the same type and nulls in the same places |
| `Compare.ValidityBitmapEqual` | arrow/array/compare.go:534-546 | true exactly when the same slots are null |
| `Compare.EqualBooleans` | arrow/array/boolean.go:81-91 | for arrays of one shape, equality of values |
| `Compare.EqualFixedWidth` | arrow/array/fixedsize_binary.go:81-91 | for arrays of one shape, equality of values |
| `Compare.EqualBinaries` | arrow/array/binary.go:120-130 | for arrays of one shape, equality of values |
| `Compare.EqualLists` | arrow/array/list.go:82-99 | for lists of one shape, not all null: true exactly when the values are equal and each valid slot agrees in what it hides |
| `Compare.EqualStructs` | arrow/array/struct.go:108-116 | for structs of one shape, not all null: true exactly when the values are equal and all fields agree, in the rows of null slots too |
| `Compare.ListSlot` | arrow/array/list.go:66-71 | the list value of a slot means what the slot holds, for lists, maps and fixed-size lists |
| `Compare.ListValueIs` | arrow/array/list.go:66-71 | the list value of a slot is the child from the slot's offset to the next, both read off the offsets buffer; for lists of n, from (offset+i)*n to (offset+i+1)*n |
| `Compare.FieldMeaning` | arrow/array/struct.go:94-106 | a field array shows the child at the parent's offset, sliced or not |
| `Compare.ArrayEqual` | arrow/array/compare.go:199-309 | for every nested type: true exactly when type and values are equal and both sides agree in what null struct slots hide |
| `Compare.SelfAgree` | arrow/array/compare.go:199-309 | every array equals itself, whatever it hides |
| `Compare.DenseAgree` | arrow/array/compare.go:199-309 | without null struct slots at any depth, equal values agree, so that ArrayEqual is equality of values |
| `Compare.HiddenValuesDiffer` | arrow/array/compare.go:199-309 | two struct arrays with the same values that do not agree in what they hide |
| `ChunkedArrays.NewChunked` | arrow/array/table.go:113-129 | fails exactly on a chunk of another type; length and null count are those of all values |
| `ChunkedArrays.NewSlice` | arrow/array/table.go:165-201 | accepts exactly the ranges that end inside the array, whatever the sign of the start; refuses all that is outside if and only if the start is not negative or the guard refuses anyway; a range inside gives the slice of the values, for every chunk layout |
| `ChunkedArrays.CutChunks` | arrow/array/table.go:166-192 | the two loops cut the specified chunks, and no slice of a chunk is refused |
| `ChunkedArrays.NegativeSlice` | arrow/array/table.go:165-201 | a negative start on a column whose first chunk is a slice gives values that are not in the column |
| `ChunkedArrays.SliceOfSlice` | arrow/array/table.go:165-201 | slicing a slice gives, chunk for chunk, what slicing once with added offsets gives |
| `ChunkedCompare.SkipFinished` | arrow/array/compare.go:79-93 | stepping over used-up and empty chunks ends, keeps both positions and never indexes past a chunk list |
| `ChunkedCompare.ChunkedBinaryApply` | arrow/array/compare.go:71-105 | for any two layouts of equal length, the calls partition [0, length) into non-empty pieces at equal positions, each from one chunk boundary of either side to the next |
| `ChunkedCompare.EveryPieceCalled` | arrow/array/compare.go:71-105 | every largest piece that no chunk boundary cuts is one of the calls |
| `ChunkedCompare.PieceInside` | arrow/array/compare.go:71-105 | the range of a call reads the values at its position |
| `ChunkedCompare.ColumnNulls` | arrow/array/table.go:113-129 | the null count of a column is the number of nulls among its values |
| `ChunkedCompare.ArraySliceEqual` | arrow/array/compare.go:312-319 | true exactly when type and values of the two ranges are equal and the ranges agree in what they hide |
| `ChunkedCompare.ChunkedEqual` | arrow/array/compare.go:108-127 | true exactly for the same object, or non-empty columns of the same type and values that agree in what they hide between any two chunk boundaries |
| `ChunkedCompare.DenseColumns` | arrow/array/compare.go:108-127 | without null struct slots, equal values are enough, whatever the chunks |
| `ChunkedCompare.ChunksMatter` | arrow/array/compare.go:108-127 | three columns of the same values: the first and the third differ, the second, which is the first in two chunks, equals the third |
| `TableReaders.TableReader.constructor` | arrow/array/table.go:332-356 | a reader starts at row 0, with the largest step for a chunk size that is not positive |
| `TableReaders.Advance` | arrow/array/table.go:386-405 | one column's part of a record holds the next values, and its cursor moves with them |
| `TableReaders.TableReader.Next` | arrow/array/table.go:361-416 | a record holds the same rows of every column; it has as many rows as the table, or as the chunk size, or ends at a chunk boundary, and never more than either; rows or chunk slots left go down |
| `TableReaders.ReadAll` | arrow/array/table.go:332-416 | reading ends; per column the records hold a prefix of the column in order, all rows of the table included; every record has as many rows as the table, or as the chunk size given, or ends at a chunk boundary; exactly the table's rows if and only if the rows after the last boundary are a multiple of that size |
| `TableReaders.ExactColumnAligned` | arrow/array/table.go:361-416 | a column of exactly as many values as there are rows makes the reading exact |
| `TableReaders.StepAligned` | arrow/array/table.go:371 | a step keeps alignment, and passes the last row only if that is not aligned |
| `TableReaders.LongColumnOverruns` | arrow/array/table.go:371 | a table of three rows over a column of four values that is not read exactly |
| `Memory.Buffer.Resize` | arrow/memory/buffer.go:98-125 | the requested length with the common prefix kept; less than 64 bytes of room beyond it where memory is taken or given back, and no new memory where that is unnecessary |
| `Memory.Buffer.ResizeNoShrink` | arrow/memory/buffer.go:104-125 | the requested length without giving memory back; new memory only when there is too little |
| `Builders.Builder.Init` | arrow/array/builder.go:96-102 | a bitmap for the capacity, all zero |
| `Builders.Builder.Resize` | arrow/array/builder.go:115-133 | keeps the validity up to the new size and recounts nulls; the tail stays zero when nothing is cut off, and exactly when no cut-off bit is left otherwise |
| `Builders.Builder.Reserve` | arrow/array/builder.go:135-143 | room for the entries with validity unchanged; capacity never goes down, stays when there is room already, and is otherwise a power of two above the entries needed and at most twice as many |
| `Builders.Builder.UnsafeAppendBoolsToBitmap` | arrow/array/builder.go:147-179 | appends the flags, or that many valid entries without flags; nulls stay exact, the tail zero |
| `Builders.Builder.UnsafeSetValid` | arrow/array/builder.go:182-203 | appends valid entries through bits, whole bytes and bits |
| `Builders.Builder.UnsafeAppendBoolToBitmap` | arrow/array/builder.go:205-212 | appends one entry; a null needs no write because the tail is zero |
| `Builders.Appended` | arrow/array/builder.go:147-212 | writing bits over a zero tail appends them to the validity, adds up nulls and keeps the tail zero |
| `BufferBuilders.BufferBuilder.Resize` | arrow/array/bufferbuilder.go:71-84 | usable exactly as long as there is room for the contents, which are kept then; new bytes are zero |
| `BufferBuilders.BufferBuilder.MakeRoom` | arrow/array/bufferbuilder.go:87-102 | room for n more bytes: nothing changes when there is room already, and otherwise the capacity is at least the power of two above the bytes needed |
| `BufferBuilders.BufferBuilder.Advance` | arrow/array/bufferbuilder.go:87-93 | appends zero bytes |
| `BufferBuilders.BufferBuilder.Append` | arrow/array/bufferbuilder.go:96-102 | appends the bytes, growing as needed |
| `BufferBuilders.BufferBuilder.Finish` | arrow/array/bufferbuilder.go:114-122 | hands over a buffer of exactly the bytes appended, and is empty again |
| `BufferBuilders.BufferBuilder.AppendInt32` | arrow/array/bufferbuilder_numeric.gen.go:51-58 | appends the four bytes of an int32 |
| `BinaryBuilders.BinaryBuilder.Append` | arrow/array/binarybuilder.go:73-78 | appends one valid entry with its bytes, using up one place of the room reserved before it grows |
| `BinaryBuilders.BinaryBuilder.AppendNull` | arrow/array/binarybuilder.go:84-88 | appends one null entry, using up one place of the room reserved before it grows |
| `BinaryBuilders.BinaryBuilder.AppendValues` | arrow/array/binarybuilder.go:93-109 | fails exactly on mismatched flags; appends all values with their validity |
| `BinaryBuilders.BinaryBuilder.Resize` | arrow/array/binarybuilder.go:172-175 | changes the room for entries and nothing that was appended |
| `BinaryBuilders.BinaryBuilder.Reserve` | arrow/array/binarybuilder.go:158-160 | room for the entries, never less than before, unchanged when there is room already; changes nothing that was appended |
| `BinaryBuilders.BinaryBuilder.Value` | arrow/array/binarybuilder.go:132-142 | while building, entry i is the bytes appended i-th as long as its offsets fit int32 |
| `BinaryBuilders.BinaryBuilder.NewData` | arrow/array/binarybuilder.go:192-207 | the array means what was appended when all bytes fit int32 offsets; the builder is empty again |
| `BinaryBuilders.BuiltMeaning` | arrow/array/binary.go:44-50 | Binary.Value of a finished array is the bytes appended for each valid entry |
| `BinaryBuilders.OffsetsExact` | arrow/array/binarybuilder.go:209-213 | stored offsets are the byte counts if and only if all bytes fit an int32 |
| `BinaryBuilders.Build` | arrow/array/binarybuilder.go:73-207 | any run of appends and reservations, then NewArray: the array means what the run appended |
| `RefCounts.StepSafe` | arrow/array/data.go:42-182 | an allowed step of any goroutine never touches a freed resource and keeps counts equal to the references held |
| `RefCounts.RunSafe` | arrow/array/data.go:42-182 | so does every run of allowed steps: operations of any number of goroutines, step by step in the order of the source, in any interleaving that keeps the rules |
| `RefCounts.FreedOnceAndOnlyUnused` | arrow/array/data.go:67-126 | after any allowed run: counts are exact; freed at most once, exactly when nothing holds it; no object names a freed resource except while its Reset is about to replace the list; between operations nothing is left over |
| `RefCounts.NothingLeaks` | arrow/array/data.go:111-126 | when every reference has been given back, everything has been freed, cycles aside |
| `RefCounts.AdvanceSafe` | arrow/array/data.go:42-182 | the next atomic step of an unfinished operation, whichever it is, succeeds unless a Reset starts to release from an object that is being read |
| `RefCounts.TouchesLive` | arrow/array/data.go:42-182 | a step that succeeds counts, reads or assigns only a resource that has not been freed |
| `RefCountRules.StaleRead` | arrow/array/data.go:67-80 | reading an object between the first release and the assignment of its Reset: a slice retains a freed buffer |
| `RefCountRules.TornRead` | arrow/array/data.go:150-182 | a Reset that starts to release from an object while it is sliced: a reference is left that nobody releases |
| `RefCountRules.OverlappingResets` | arrow/array/data.go:67-100 | two calls of Reset for one object at the same time: a buffer is released twice |
| `RefCountMethods.Resources.NewData` | arrow/array/data.go:42-64 | the loops are the steps of the protocol; what the object refers to gains one count per occurrence |
| `RefCountMethods.Resources.NewSliceData` | arrow/array/data.go:150-182 | reading, retaining and reading again are the steps of the protocol; the new object refers to what the old one does |
| `RefCountMethods.Resources.Release` | arrow/array/data.go:111-126 | a release with all that it sets free is a run of the protocol, and ends |
| `RefCountMethods.Resources.Reset` | arrow/array/data.go:67-100 | retain, release, assign, in this order and list by list, is a run of the protocol; reset to the same buffers and children, nothing changes |
| `CMetadata.EncodeCMetadata` | arrow/cdata/cdata_exports.go:48-69 | count, lengths and bytes of all keys and values; fails exactly on unequal numbers |
| `CMetadata.EncodedLayout` | arrow/cdata/cdata_exports.go:48-69 | the count in the first four bytes; pair i behind it and the pairs before, 8 bytes and its strings each: the length and bytes of the key, then of the value; and nothing else |
| `CMetadata.DecodeCMetadata` | arrow/cdata/cdata.go:102-138 | reads pair after pair with a cursor; fails exactly where a read would leave the memory seen |
| `CMetadata.DecodeEncode` | arrow/cdata/cdata.go:102-138 | decoding undoes encoding for all byte contents and any suffix, consuming just the encoded bytes, if and only if they are at most 0x7fffffff |
| `CMetadata.EncodeDecode` | arrow/cdata/cdata.go:102-138 | what is decoded, from any bytes at all, is encoded at the start of the first 0x7fffffff bytes |
| `CMetadata.DecodesExactly` | arrow/cdata/cdata.go:102-138 | decoding succeeds if and only if the memory starts with encoded metadata of at most 0x7fffffff bytes |
| `Text.AtoiItoa` | arrow/cdata/cdata.go:207-212 | parsing a printed 64-bit number gives the number |
| `Text.AtoiBounds` | arrow/cdata/cdata.go:207-224 | signs are read and need digits; what is out of the 64-bit range stops at its bounds with an error |
| `Text.AtoiRefuses` | arrow/cdata/cdata.go:207-224 | a string with a character that is no digit, its sign aside, gives 0 with an error |
| `CSchemas.ExportField` | arrow/cdata/cdata_exports.go:228-253 | the schema tree of a field, children first to last, failing on the first that fails |
| `CSchemas.ExportedParts` | arrow/cdata/cdata_exports.go:217-253 | at every level of an exported schema: flag 2 exactly for nullable fields, flag 4 exactly for maps with sorted keys, no other flag; name and format up to the first character 0; one child per child of the type |
| `CSchemas.ExportedMap` | arrow/datatype_nested.go:257-284 | a map is exported with one child "entries" of format "+s", which is not nullable and holds "key", not nullable, and "value" |
| `CSchemas.ImportSchema` | arrow/cdata/cdata.go:141-252 | the field of a schema tree, failing on the first child that fails |
| `CSchemas.ImportedParts` | arrow/cdata/cdata.go:162-245 | for every schema that is imported, whoever exported it: nullable exactly for flag 2, sorted keys exactly for flag 4, the name, the metadata, and the children imported in turn; structs only with distinct names |
| `CSchemas.FixedSizeListRead` | arrow/cdata/cdata.go:227-234 | for any text after "+w:": refused unless it is a number, there is a child, and the int32 of the number is positive |
| `CSchemas.BinaryRead` | arrow/cdata/cdata.go:206-211 | for any text after "w:": the number before a second colon is the width, and what is no number is refused |
| `CSchemas.DecimalRead` | arrow/cdata/cdata.go:212-222 | for any text after "d:": one part and three parts are refused; otherwise precision and scale are the int32 values of the first two, 0 for what is no number |
| `CSchemas.PlainRead` | arrow/cdata/cdata.go:169-250 | every format without colon and plus sign that is no simple type is refused |
| `CSchemas.SimpleFormats` | arrow/cdata/cdata.go:63-92 | the 28 formats of the simple types, and no others |
| `CSchemas.FormatBack` | arrow/cdata/cdata.go:169-244 | every exported format is read back as its type, zones cut at NUL and colon and defaulting to UTC |
| `CSchemas.FieldBack` | arrow/cdata/cdata.go:141-252 | a field comes back exactly when its own parts and its children do |
| `CSchemas.RoundTrip` | arrow/cdata/cdata.go:141-252 | export and import give back an equal field, at any nesting, if and only if nothing is lost: the named conditions |
| `CSchemas.EmptyZoneLost` | arrow/cdata/cdata.go:169-244 | a timestamp without a zone comes back with the zone UTC |
| `CSchemas.NonNullableItemsLost` | arrow/cdata/cdata.go:169-244 | a map whose items are never null does not come back |
| `Decimal128.NegatedValue` | arrow/decimal128/decimal128.go:89-96 | negation modulo 2^128 with the carry between the limbs; the smallest number is its own negation |
| `Decimal128.SignValue` | arrow/decimal128/decimal128.go:109-114 | the sign of the number |
| `Decimal128.FromI64Value` | arrow/decimal128/decimal128.go:50-59 | sign extension keeps the value |
| `Decimal128.FromBigIntValue` | arrow/decimal128/decimal128.go:63-87 | fails exactly from 2^128 on in absolute value; otherwise stores the value modulo 2^128 |
| `Decimal128.BigIntValue` | arrow/decimal128/decimal128.go:123-129 | reads the value of every number, the smallest included |
| `Decimal128.BigIntRoundTrip` | arrow/decimal128/decimal128.go:63-129 | storing and reading gives back v if and only if v is in [-2^127, 2^127) |
| `Decimal128.NumRoundTrip` | arrow/decimal128/decimal128.go:63-129 | reading and storing gives back every number |

## Left out

- Everything outside the Arrow engine (`odps/`, `sqldriver/`): REST, XML and JSON clients, polling and SQL glue.
- `arrow/flight`, `ipc`, `csv`, compression, C callbacks, malloc and finalizers: foreign calls and libraries that are not part of this model. The C schema is a tree of values.
- Generated per-type arrays and builders, `float16`, printing, hashing, approximate and floating-point comparison, the big-endian build. Fixed-width types are told apart by their width only, and compared byte for byte.
- Large types, dictionaries, unions and extension types: `concat` and `MakeFromData` refuse them here, as the first does in the source. The C schema of an extension type is not modelled.
- `BitmapWriter.AppendBools` and `BitmapWriter.Reset`.
- Aliasing between source and destination slices, between arrays that share data, and between a builder's slices: buffers of finished arrays are values.
- Offsets buffers that are nil: variable-size data is well-formed here only with an offsets buffer.
- BitUtil.NextPowerOf2: does not model arguments of 2^62 and more, where the shift overflows.
- BinaryBuilders.BinaryBuilder.Resize: sizes below the number of entries are excluded, because the offsets would be cut and the entries not; `ReserveData` and the string variants add nothing new.
- RefCounts.RunSafe: each read of a whole list of an object, each assignment of a list and each count is one atomic step; that the memory model of Go makes plain reads and writes of these fields atomic is not claimed. A freed object forgets its lists at once, and not after its last release. What NewData and Reset are given is owned by the caller or named, when the call begins, by an object that the caller owns.
- Buffers without an allocator are never counted or freed by the source, and are not resources here. Reference counts of arrays, chunked arrays, tables, records and builders are left out: the same protocol for the first four, and for list and struct builders the source releases children that it did not retain.
- ChunkedCompare.ChunkedBinaryApply: the function it calls is represented by the list of calls; calling it stops early on false, which is a prefix of the list.
- Schemas and field metadata of tables and chunked arrays: types are compared without names and metadata.
- ChunkedArrays.NewSlice: with a negative start, the chunks cut must be arrays whose nulls can be counted; counting in data with a negative offset or a null count that has become wrong is not modelled.
