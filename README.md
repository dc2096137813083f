# Binary RPC core of the three.js viewer

The browser side of this viewer gets binary WebSocket frames and answers each one with a
binary reply. A frame is an Int32 operation index followed by the operation's arguments.
The arguments are laid out as the operation's `ArgTypes` composite descriptor says.
The reply is the handler's result written with the operation's return descriptor into a
buffer of exactly `retType.size` bytes.

This project models the core of that protocol in Dafny:

- **`IODataView`** (`Stream.IODataView`) is a cursor over a byte array. It has
  little-endian fixed-width readers, typed-array readers, the base-128 length-prefixed
  `readString`, `readAny` with its tag byte, `readDict`, `readType`/`writeType` and the
  two writers. Each method is proved against a function of module `Decode` or `Encode`.
- **Type descriptors** (`Descriptors`). `PrimitiveType` has its `size` (a byte count,
  `Infinity` or absent). `CompositeType` has sub-descriptors and a combiner. There is
  also the `[T]` sequence marker.
- **Handle tables** (`Handles.Tables`). These are the module-level arrays `meshes`,
  `materials` and `guis`. A handle is a position in its array. `delete` leaves a hole,
  and the `delAll*` operations truncate the array.
- **Operation registry** (`Registry.Operations`). This is the `operations` array: its
  elements are the handlers and its named properties map names to indices. It also holds
  `typedFunction`, `getOperation` and the built-in `getOperationNamed` handler.
- **`Viewer.handleMessage`** (`Dispatch.Viewer.HandleMessage`) handles one frame from
  start to end. The frames it sends are recorded in the `sent` sequence.

A JavaScript exception is modelled as `Err(fault)`. A `RangeError` comes from a DataView
access outside the buffer, a negative typed-array length or an `Infinity` buffer size.
A `TypeError` comes from calling through `undefined`. `Unmodelled` stands for behaviour
that depends on JavaScript semantics outside the model. The JavaScript 32-bit operators
(`|`, `<<`, ToInt32) are written out on unbounded integers in module `Wire`.

Where the code and its design description differ, the model follows the code:

- `readInt8` calls `getUint8`, so it returns an unsigned byte.
- An unknown `Any` tag is only logged: it yields `undefined` after consuming just the
  tag byte.
- A `[T]` marker with a negative count reads an empty array instead of failing.
- `None` declares a size of one byte. Its writer stores one zero byte, but its reader
  consumes nothing.
- The second definition of `writeArrayFloat32` replaces the first. It calls itself with
  the count, so it never finishes normally.

## Model

| member | source | states |
|---|---|---|
| Decode.ByteAt | Threejs/src/index.js:167-171 | `getUint8` succeeds exactly when one byte is left at the cursor, and then gives that byte |
| Decode.Int32Of | Threejs/src/index.js:131-135 | the Int32 of four little-endian bytes is a 32-bit integer, and equals their unsigned value when that is below 2^31 |
| Decode.Int32Field | Threejs/src/index.js:131-135 | `getInt32` succeeds exactly when four bytes are left, and then gives their two's-complement value |
| Decode.RawAt | Threejs/src/index.js:125-130 | a float or 64-bit read succeeds exactly when its width fits, and then yields those bytes and advances by the width |
| Decode.BoolAt | Threejs/src/index.js:18 | the `Bool` reader succeeds exactly when a byte is left, and gives whether it is non-zero |
| Decode.Int32At | Threejs/src/index.js:20 | the `Int32` reader succeeds exactly when four bytes fit, and then gives their Int32 and advances by four |
| Decode.SpanIsProduct | Threejs/src/index.js:192-219 | `n` elements of width `w` laid end to end take `n * w` bytes |
| Decode.ElemWidth | Threejs/src/index.js:192-219 | a typed-array element takes one byte (UInt8) or four (UInt32, Int32, Float32) |
| Decode.ElemAt | Threejs/src/index.js:192-219 | one element read succeeds exactly when its width fits |
| Decode.ArrayAt | Threejs/src/index.js:192-219 | the typed-array loop gives `n` elements when it finishes, and otherwise a RangeError |
| Decode.ArrayAtSucceeds | Threejs/src/index.js:192-219 | a typed array of `n` elements is read exactly when `n` times the width fits, and has `n` elements |
| Decode.ArrayAtItem | Threejs/src/index.js:192-219 | element `i` of a typed array is the element stored `i` widths after the start |
| Decode.PrefixGroups | Threejs/src/index.js:233-241 | the length prefix ends inside the buffer with one group per byte, and running past the end is a RangeError |
| Decode.Accumulate | Threejs/src/index.js:233-241 | once a first group has been ORed into `size`, the length is a 32-bit integer, whatever the groups are |
| Decode.StringAt | Threejs/src/index.js:229-243 | a string read ends after its prefix, inside the buffer |
| Decode.MatrixAt | Threejs/src/index.js:23 | `Matrix4x4` succeeds exactly when 64 bytes fit, and gives a matrix of sixteen components |
| Decode.StrAt | Threejs/src/index.js:29 | the `Str` reader succeeds exactly when `readString` does, and gives its bytes and end |
| Decode.CountedArrayAt | Threejs/src/index.js:26-28 | a counted typed array needs its Int32 count in the buffer, and never moves the cursor backwards or past the end |
| Decode.PrimAt | Threejs/src/index.js:17-32 | each primitive reader stays inside the buffer and never moves backwards |
| Decode.ReadType | Threejs/src/index.js:67-72 | `readType` stays inside the buffer and never moves backwards |
| Decode.ReadPrim | Threejs/src/index.js:8-15 | a primitive descriptor's `read` stays inside the buffer |
| Decode.ReadSeq | Threejs/src/index.js:67-71 | a `[T]` read of count `n` gives exactly `n` values |
| Decode.ReadAll | Threejs/src/index.js:40 | a composite reads one value per sub-descriptor |
| Decode.ReadAny | Threejs/src/index.js:99-124 | `readAny` always consumes at least its tag byte and stays inside the buffer |
| Decode.ReadDict | Threejs/src/index.js:89-98 | `readDict` moves the cursor forward and stays inside the buffer |
| Decode.ReadEntries | Threejs/src/index.js:92-96 | the loop of `readDict` never moves backwards or past the end |
| Decode.EntriesStep | Threejs/src/index.js:92-96 | one loop iteration reads a key and an `Any` value and stores the value under the key |
| Decode.EntriesStop | Threejs/src/index.js:92-96 | a failed key or value read ends `readDict` with that fault |
| DecodeProperties.FixedPrimWidthIsSize | Threejs/src/index.js:17-31 | a fixed-width primitive declares a byte count as its `size`, and its reader succeeds exactly when that many bytes are left and then moves the cursor by exactly that many |
| DecodeProperties.FixedReadWidth | Threejs/src/index.js:67-72 | a fixed descriptor reads exactly when its width fits, and then advances by that width |
| DecodeProperties.FixedReadAllWidth | Threejs/src/index.js:40 | a composite of fixed descriptors reads exactly when the sum of their widths fits |
| DecodeProperties.NoneReadsNothing | Threejs/src/index.js:17 | `None` declares one byte but reads none |
| DecodeProperties.SeqNegativeCountIsEmpty | Threejs/src/index.js:67-71 | a `[T]` marker with a negative count gives an empty array after consuming only the count |
| DecodeProperties.TypedArrayNegativeCountFails | Threejs/src/index.js:192-219 | a typed array with a negative count is a RangeError |
| DecodeProperties.FixedSeqRead | Threejs/src/index.js:67-71 | `[T]` with count `n` for a fixed `T` reads `n` values in `n * width` bytes, and fails exactly when they leave the buffer |
| DecodeProperties.FixedSeqReadMany | Threejs/src/index.js:67-71 | `n` fixed-width values read exactly when `n * width` bytes fit |
| DecodeProperties.StringAtBase128 | Threejs/src/index.js:229-243 | a length below 2^28 encoded in base 128 is read back exactly, followed by that many payload bytes |
| DecodeProperties.StringAtFromPrefix | Threejs/src/index.js:236-238 | after the prefix, the payload is the next `size` bytes, or a RangeError when they are missing |
| DecodeProperties.PrefixOfEncoding | Threejs/src/index.js:233-241 | the base-128 encoding of `m` is read back group by group |
| DecodeProperties.AccumulateBase128 | Threejs/src/index.js:233-241 | the loop of 32-bit ORs of shifted groups sums the groups as plain arithmetic below 2^28 |
| DecodeProperties.EmptyString | Threejs/src/index.js:229-243 | a zero byte is the empty string |
| DecodeProperties.StringLength127 | Threejs/src/index.js:229-243 | prefix 0x7F gives a 127-byte string |
| DecodeProperties.StringLength128 | Threejs/src/index.js:229-243 | prefix 0x80 0x01 gives a 128-byte string |
| DecodeProperties.FiveBytePrefixWraps | Threejs/src/index.js:233-241 | a prefix worth 2^31 wraps negative in 32 bits, so the read is a RangeError |
| DecodeProperties.LeadingZeroGroups | Threejs/src/index.js:233-241 | continuation bytes of zero keep the accumulator at zero, and a group 8 at bit 28 sets the sign bit |
| DecodeProperties.AnyFixedTagWidth | Threejs/src/index.js:99-124 | each fixed-size `Any` tag consumes the tag byte plus its payload width, and fails exactly when the payload leaves the buffer |
| DecodeProperties.AnyByteValues | Threejs/src/index.js:102-105 | tags 0 and 1 give a boolean and an unsigned byte |
| DecodeProperties.AnyNumberValues | Threejs/src/index.js:106-113 | tags 2 to 5 give an Int32 and the raw Int64, Float32 and Float64 bytes |
| DecodeProperties.AnyStringAndDict | Threejs/src/index.js:114-120 | tag 6 is a string and tag 9 a nested dictionary |
| DecodeProperties.ReadRGB | Threejs/src/index.js:48 | the colour descriptor reads three Float32s into one colour |
| DecodeProperties.AnyColorValue | Threejs/src/index.js:116-118 | tags 7 and 8 decode twelve bytes as a colour |
| DecodeProperties.ColorTagsAlias | Threejs/src/index.js:116-118 | tags 7 and 8 decode the same payload to the same colour |
| DecodeProperties.AnyUnknownTag | Threejs/src/index.js:121-123 | an unknown tag gives `undefined` and consumes only the tag byte |
| DecodeProperties.DictNegativeCount | Threejs/src/index.js:89-98 | a negative key count gives an empty dictionary after the count |
| DecodeProperties.EntriesArePairs | Threejs/src/index.js:92-96 | the `readDict` loop fails exactly when one of its key or value reads fails, and otherwise stores the pairs it read in the order read |
| DecodeProperties.LastPairWins | Threejs/src/index.js:95 | after `obj[key] = val` for each pair in turn, a key holds the value of its last pair |
| DecodeProperties.PairsKeep | Threejs/src/index.js:95 | a key that no pair mentions keeps its value, or its absence |
| DecodeProperties.DictLaterKeyWins | Threejs/src/index.js:89-98 | for every frame, `readDict` succeeds when its pairs read, and each key holds the value of the last entry with that key |
| DecodeProperties.DictDuplicateKeyExample | Threejs/src/index.js:89-98 | example: count 2, then "a" := 1 and "a" := 2, gives the dictionary {"a": 2} after 18 bytes |
| DecodeProperties.DuplicateKeyEntries | Threejs/src/index.js:92-96 | entries "a" := 1 then "a" := 2 leave only "a" := 2 |
| DecodeProperties.KeyAThenInt32 | Threejs/src/index.js:92-96 | one seven-byte entry stores its Int32 under key "a" |
| DecodeProperties.AnyInt32 | Threejs/src/index.js:106-107 | tag 2 followed by `a, 0, 0, 0` is the number `a` |
| DecodeProperties.SmallInt32 | Threejs/src/index.js:131-135 | little-endian `a, 0, 0, 0` is the Int32 `a` |
| DecodeProperties.KeyA | Threejs/src/index.js:229-243 | bytes 0x01 0x61 are the one-byte key "a" |
| Encode.Store | Threejs/src/index.js:136-140 | a store replaces exactly the bytes at the cursor and keeps every other byte |
| Encode.Int32Bytes | Threejs/src/index.js:136-140 | `setInt32` stores four bytes |
| Encode.NumberOf | Threejs/src/index.js:136-140 | ToNumber of a boolean or number is non-zero exactly when the value is truthy, and `undefined` and objects become 0 (NaN, which `setInt32` stores as 0) |
| Encode.LengthOf | Threejs/src/index.js:76 | `v.length` of an array is its item count, and `undefined` or a string has no usable length |
| Encode.PutInt32 | Threejs/src/index.js:136-140 | `writeInt32` moves the cursor by four, and stores the bytes when they fit or throws a RangeError leaving the buffer unchanged |
| Encode.PutUInt8 | Threejs/src/index.js:172-176 | `writeUInt8` moves the cursor by one, and stores the byte when it fits or throws a RangeError leaving the buffer unchanged |
| Encode.FillInt32 | Threejs/src/index.js:225-228 | the surviving `writeArrayFloat32` always ends in a RangeError and keeps the tables |
| Encode.AddHandle | Threejs/src/index.js:273-280 | for `Id`, a handle is added exactly for a three.js object; for `MatId`/`GUIId`, a non-object value is Unmodelled |
| Encode.PrimWrite | Threejs/src/index.js:17-32 | a primitive writer never changes the buffer's length |
| Encode.HandleWrite | Threejs/src/index.js:30-32 | a handle writer never changes the buffer's length |
| Encode.WriteType | Threejs/src/index.js:73-80 | `writeType` never changes the buffer's length |
| Encode.WriteEach | Threejs/src/index.js:76-77 | writing the elements never changes the buffer's length |
| EncodeProperties.Int32BytesRead | Threejs/src/index.js:131-140 | the Int32 read back from what `setInt32` stored is the value wrapped to 32 bits |
| EncodeProperties.Int32WriteRead | Threejs/src/index.js:131-140 | `writeInt32(v)` then `readInt32()` gives `ToInt32(v)`, and both move by four |
| EncodeProperties.StoredInt32Reads | Threejs/src/index.js:131-140 | a stored Int32 field reads back wrapped to 32 bits |
| EncodeProperties.HandleWriteRead | Threejs/src/index.js:30-32 | writing a handle appends the object, and reading the id back resolves to that object |
| EncodeProperties.HandleKeptOnThrow | Threejs/src/index.js:30-32 | a handle write that throws still leaves the object in its table |
| EncodeProperties.MissingWriters | Threejs/src/index.js:19-29 | writers that call a missing method throw a TypeError and touch nothing |
| EncodeProperties.UnfinishedWriters | Threejs/src/index.js:33-41 | composites, `Dict` and `Any` write nothing and do not throw |
| EncodeProperties.ArrayWritersThrow | Threejs/src/index.js:23-28 | `Matrix4x4` and `ArrayFloat32` writes never finish normally |
| EncodeProperties.FillInt32Keeps | Threejs/src/index.js:225-228 | the recursive writer keeps every byte before the cursor |
| EncodeProperties.FillInt32Stores | Threejs/src/index.js:225-228 | the recursive writer stores the count in every whole four-byte slot up to the end |
| EncodeProperties.NoneAsymmetry | Threejs/src/index.js:17 | `None` writes one zero byte but reads nothing |
| EncodeProperties.BoolWriteRead | Threejs/src/index.js:18 | a written `Bool` reads back as the truthiness of the value |
| EncodeProperties.WriteTypeStores | Threejs/src/index.js:73-80 | `writeType` of a writable value stores exactly its encoding, keeps everything else and does not throw when there is room |
| EncodeProperties.WriteEachStores | Threejs/src/index.js:76-77 | the elements' encodings are stored one after the other |
| EncodeProperties.WriteEachCons | Threejs/src/index.js:76-77 | the first element's bytes and then the rest form one store |
| EncodeProperties.WriteEachStep | Threejs/src/index.js:76-77 | after one element, the rest are written from the state it left |
| EncodeProperties.ReadTypeDecodes | Threejs/src/index.js:67-72 | `readType` on the encoding of a writable value gives it back and stops after it |
| EncodeProperties.Int32Decodes | Threejs/src/index.js:20 | an encoded Int32 is read back |
| EncodeProperties.BoolDecodes | Threejs/src/index.js:18 | an encoded `Bool` is read back |
| EncodeProperties.SeqOfStep | Threejs/src/index.js:67-71 | a `[T]` whose count holds `n >= 0` reads `n` elements |
| EncodeProperties.ReadSeqDecodes | Threejs/src/index.js:67-71 | the encodings of `n` elements read back as those elements |
| EncodeProperties.ReadSeqCons | Threejs/src/index.js:67-71 | the first element and then the rest are read from the split encoding |
| EncodeProperties.ReadHeadTail | Threejs/src/index.js:67-71 | a sequence read is its first element followed by the rest |
| EncodeProperties.ReadSeqStep | Threejs/src/index.js:67-71 | one iteration of a sequence read |
| EncodeProperties.WriteThenRead | Threejs/src/index.js:67-80 | what `writeType` stores for a writable value, `readType` reads back as that value, consuming exactly the bytes written |
| Handles.Lookup | Threejs/src/index.js:281-283 | `table[idx]` holds an object exactly at a live position inside the array |
| Handles.MaterialLookup | Threejs/src/index.js:425-427 | id -1 is the default material, and any other id indexes the table |
| Handles.Vacated | Threejs/src/index.js:428-430 | `delete` empties one slot and keeps the length and every other slot |
| Handles.AddAllIds | Threejs/src/index.js:273-280 | successive adds hand out ids from the length upwards, in call order |
| Handles.Apply | Threejs/src/index.js:273-299 | an add appends one live slot and keeps the others, a delete keeps the length and clears its slot, and a truncation leaves no live slot |
| Handles.Run | Threejs/src/index.js:273-299 | each call adds at most one slot, and without truncation the table never shrinks |
| Handles.TombstoneNeverResolves | Threejs/src/index.js:284-293 | a deleted id never resolves again unless the table is truncated |
| Handles.TruncationRestartsIds | Threejs/src/index.js:294-299 | after truncation the next add gets id 0 |
| Handles.Tables.constructor | Threejs/src/index.js:272 | all three tables start empty |
| Handles.Tables.View | Threejs/src/index.js:272 | the snapshot holds the three arrays |
| Handles.Tables.AddMesh | Threejs/src/index.js:273-280 | the id is the prior length and the mesh is appended |
| Handles.Tables.GetMesh | Threejs/src/index.js:281-283 | a mesh is returned exactly for a live id |
| Handles.Tables.DelMesh | Threejs/src/index.js:284-293 | a live id is cleared and returned, and anything else changes nothing |
| Handles.Tables.DelAllMeshes | Threejs/src/index.js:294-299 | returns the prior length and empties the array |
| Handles.Tables.AddMaterial | Threejs/src/index.js:422-424 | the id is the prior length and the material is appended |
| Handles.Tables.GetMaterial | Threejs/src/index.js:425-427 | id -1 is the default material, and otherwise a live id's material |
| Handles.Tables.DelMaterial | Threejs/src/index.js:428-430 | clears that one slot unconditionally |
| Handles.Tables.DelAllMaterials | Threejs/src/index.js:431-433 | empties the array |
| Handles.Tables.AddGUI | Threejs/src/index.js:437-439 | the id is the prior length and the panel is appended |
| Handles.Tables.GetGUI | Threejs/src/index.js:441-443 | a panel is returned exactly for a live id |
| Handles.Tables.DelGUI | Threejs/src/index.js:444-447 | a live id is cleared, and any other id is a TypeError that changes nothing |
| Registry.ArgTypes | Threejs/src/index.js:457 | the argument descriptor is a composite of the declared types with the identity combiner |
| Registry.Register | Threejs/src/index.js:456-461 | a registration keeps every recorded index a position of the array |
| Registry.RegisterAll | Threejs/src/index.js:456-461 | each registration adds one handler, a recorded name stays recorded, and every recorded index stays a position of the array |
| Registry.NamedIndexDispatches | Threejs/src/index.js:452-471 | an index `getOperationNamed` answers (not -1) is positive and names a registered handler |
| Registry.OperationAt | Threejs/src/index.js:452-454 | `getOperation` finds a handler exactly inside the array |
| Registry.IndexNamed | Threejs/src/index.js:463-471 | the recorded index when it is truthy, otherwise -1 |
| Registry.RegisterAllList | Threejs/src/index.js:459 | registrations get consecutive positions after the existing ones, in order |
| Registry.RegisterAllLast | Threejs/src/index.js:459 | a name resolves to its last registration |
| Registry.RegisterAllOthers | Threejs/src/index.js:459 | a name that is not registered again keeps its index |
| Registry.SelfNeverFound | Threejs/src/index.js:463-471 | `getOperationNamed` at index 0 is never found by name, because 0 is falsy |
| Registry.RegisteredNameFound | Threejs/src/index.js:459-471 | a name registered after initialisation, and not again since, is found at its position |
| Registry.Operations.View | Threejs/src/index.js:450 | the snapshot holds the array and its named properties |
| Registry.Operations.constructor | Threejs/src/index.js:463-471 | the registry starts with `getOperationNamed` at index 0 |
| Registry.Operations.TypedFunction | Threejs/src/index.js:456-461 | the handler's index is the prior length, recorded under its name |
| Registry.Operations.GetOperation | Threejs/src/index.js:452-454 | as `OperationAt` on the current registry |
| Registry.Operations.GetOperationNamed | Threejs/src/index.js:463-471 | as `IndexNamed` on the current registry |
| Dispatch.ReplyLength | Threejs/src/index.js:980 | the reply buffer has `retType.size` bytes: `Infinity` is a RangeError and a missing size gives none |
| Dispatch.Zeros | Threejs/src/index.js:980 | a new buffer is zero-filled |
| Dispatch.Invoke | Threejs/src/index.js:978 | `getOperationNamed` called with a string looks it up, and called without one gives -1 |
| Dispatch.Handle | Threejs/src/index.js:968-983 | a frame shorter than an opcode or naming no operation fails before anything is read, called or changed (an unknown opcode is a TypeError); a reply or a warning comes only after the arguments were read, the warning is given exactly when they end before the frame does, and a reply is the found operation's `Reply` to the handler's result on those arguments |
| Dispatch.Reply | Threejs/src/index.js:980-982 | a reply has exactly the return type's size |
| Dispatch.UnknownOpcode | Threejs/src/index.js:973-975 | an opcode outside the registry is a TypeError before anything is read or sent |
| Dispatch.ReplyHasRetSize | Threejs/src/index.js:968-983 | every reply has exactly `retType.size` bytes |
| Dispatch.NoneReply | Threejs/src/index.js:980-982 | a `None` return type always gets the reply [0] |
| Dispatch.ArgsInOrder | Threejs/src/index.js:975 | the arguments are the sub-descriptors read in declared order |
| Dispatch.ExhaustedWarning | Threejs/src/index.js:976 | `checkExhausted` complains exactly when the arguments end before the frame does |
| Dispatch.NameRead | Threejs/src/index.js:975 | a single `Str` argument is read from byte 4 |
| Dispatch.NameArgs | Threejs/src/index.js:463 | the `[Str]` arguments of `getOperationNamed` are one string |
| Dispatch.Int32Reply | Threejs/src/index.js:980-982 | an Int32 result is answered with its four bytes |
| Dispatch.LookupFrame | Threejs/src/index.js:968-983 | a `getOperationNamed` frame is answered with the four bytes of the looked-up index |
| Dispatch.Viewer.constructor | Threejs/src/index.js:968 | nothing has been sent yet |
| Dispatch.Viewer.HandleMessage | Threejs/src/index.js:968-988 | a text frame changes nothing; a binary frame sends exactly the reply `Handle` computes, or nothing when it throws |
| Stream.IODataView.constructor | Threejs/src/index.js:58-61 | the cursor starts at 0 over the given buffer |
| Stream.IODataView.CheckExhausted | Threejs/src/index.js:62-66 | silent exactly when the cursor is at the end |
| Stream.IODataView.ReadUInt8 | Threejs/src/index.js:167-171 | as `ByteAt`, moving by one |
| Stream.IODataView.ReadInt8 | Threejs/src/index.js:146-150 | an unsigned byte, moving by one |
| Stream.IODataView.ReadUInt | Threejs/src/index.js:157-166 | the little-endian unsigned value when the width fits, otherwise a RangeError |
| Stream.IODataView.ReadUInt16 | Threejs/src/index.js:162-166 | two little-endian bytes, unsigned |
| Stream.IODataView.ReadUInt32 | Threejs/src/index.js:157-161 | four little-endian bytes, unsigned |
| Stream.IODataView.ReadInt16 | Threejs/src/index.js:141-145 | the 16-bit two's-complement value |
| Stream.IODataView.ReadInt32 | Threejs/src/index.js:131-135 | as `Int32Field`, moving by four |
| Stream.IODataView.ReadRaw | Threejs/src/index.js:125-130 | as `RawAt` |
| Stream.IODataView.ReadInt64 | Threejs/src/index.js:125-130 | eight raw bytes |
| Stream.IODataView.ReadUInt64 | Threejs/src/index.js:151-156 | eight raw bytes |
| Stream.IODataView.ReadFloat64 | Threejs/src/index.js:177-181 | eight raw bytes |
| Stream.IODataView.ReadFloat32 | Threejs/src/index.js:182-186 | four raw bytes |
| Stream.IODataView.ReadFloat16 | Threejs/src/index.js:187-191 | two raw bytes |
| Stream.IODataView.WriteInt32 | Threejs/src/index.js:136-140 | stores the wrapped value, or throws a RangeError and keeps the buffer |
| Stream.IODataView.WriteUInt8 | Threejs/src/index.js:172-176 | stores the byte, or throws a RangeError and keeps the buffer |
| Stream.IODataView.ReadElem | Threejs/src/index.js:192-219 | as `ElemAt` |
| Stream.IODataView.ReadArray | Threejs/src/index.js:192-219 | a negative length is a RangeError, and otherwise the result is as `ArrayAt` |
| Stream.IODataView.ReadString | Threejs/src/index.js:229-243 | as `StringAt` |
| Stream.IODataView.ReadLength | Threejs/src/index.js:230-241 | the prefix loop computes the 32-bit accumulation of the groups |
| Stream.IODataView.PrimRead | Threejs/src/index.js:17-32 | as `PrimAt` |
| Stream.IODataView.ReadCountedArray | Threejs/src/index.js:26-28 | as `CountedArrayAt` |
| Stream.IODataView.ReadType | Threejs/src/index.js:67-72 | as `Decode.ReadType` |
| Stream.IODataView.ReadItems | Threejs/src/index.js:69-70 | as `ReadSeq` for the count, or none when it is negative |
| Stream.IODataView.ReadParts | Threejs/src/index.js:40 | as `ReadAll` |
| Stream.IODataView.ReadPrim | Threejs/src/index.js:8-15 | as `Decode.ReadPrim` |
| Stream.IODataView.ReadAny | Threejs/src/index.js:99-124 | as `Decode.ReadAny` |
| Stream.IODataView.ReadDict | Threejs/src/index.js:89-98 | as `Decode.ReadDict` |
| Stream.IODataView.ReadPairs | Threejs/src/index.js:92-96 | as `ReadEntries`, with the fault of the first failed read |
| Stream.IODataView.ReadEntry | Threejs/src/index.js:93-95 | one iteration, as `EntriesStep`/`EntriesStop` |
| Stream.IODataView.WriteArrayFloat32 | Threejs/src/index.js:225-228 | as `FillInt32` |
| Stream.IODataView.HandleWrite | Threejs/src/index.js:30-32 | as `Encode.HandleWrite` |
| Stream.IODataView.PrimWrite | Threejs/src/index.js:17-32 | as `Encode.PrimWrite` |
| Stream.IODataView.WriteType | Threejs/src/index.js:73-80 | as `Encode.WriteType` |
| Descriptors.PrimSize | Threejs/src/index.js:17-31 | every primitive declares a size: 1, 4, 8 or 64 bytes, or `Infinity` exactly for the arrays, `Str`, `Dict`, `Any` and `UntypedObject` |
| Descriptors.SizeOf | Threejs/src/index.js:8-15 | only a primitive descriptor has a `size`; composites and `[T]` markers have none |
| Descriptors.Combine | Threejs/src/index.js:40-48 | a combiner keeps the parts in declared order, as the array itself (`args => args`) or as a constructor's arguments |
| Descriptors.Truthy | Threejs/src/index.js:18 | arrays, objects, dictionaries and references are truthy, and `undefined` and a number with all-zero bytes are falsy |
| Descriptors.RawFalsy | Threejs/src/index.js:18 | an all-zero bit pattern is a falsy +0 in every number format |
| Descriptors.FloatFalsy | Threejs/src/index.js:18 | the zero pattern is falsy, and below the exponent field only zero is |
| Wire.ToInt32 | Threejs/src/index.js:235 | wraps into [-2^31, 2^31) and keeps a value already in range |
| Wire.ToUint32 | Threejs/src/index.js:136-140 | wraps into [0, 2^32) and keeps a value already in range |
| Wire.Int32RoundTrip | Threejs/src/index.js:131-140 | a 32-bit integer survives the trip through its unsigned form |
| Wire.Or32 | Threejs/src/index.js:235 | JavaScript bitwise OR gives a 32-bit integer |
| Wire.Shl32 | Threejs/src/index.js:235 | `x << s` is a 32-bit integer |
| Wire.LittleEndianRoundTrip | Threejs/src/index.js:131-161 | little-endian decoding inverts encoding for values that fit |

## Left out

- Float and Int64 values are kept as their raw bytes (`VRaw`). IEEE 754 and BigInt arithmetic are not modelled. Truthiness of a raw number is decided from its bit pattern.
- StringAtBase128: stated only for lengths below 2^28 (at most four length bytes). Five-byte prefixes for lengths from 2^28 up to 2^31 are also read correctly by the source, since their top group is at most 7 and `<< 28` stays below the sign bit; the model reads them with the same 32-bit operations, but no lemma states this range.
- AccumulateBase128: has the same bound of 2^28, for the same reason.
- Encode.AddHandle: for `MatId` and `GUIId` a value that is not a three.js object is `Unmodelled`, although `addMaterial(v)`/`addGUI(v)` push any value and answer its id (`Threejs/src/index.js:31-32`, 422-424, 437-439): the tables hold objects only.
- Encode.NumberOf: ToNumber of a string, an array or a raw float/Int64 value (as `setInt32` would coerce it) is `Unmodelled`: string-to-number parsing and IEEE 754 conversion are not modelled.
- `readString` returns the UTF-8 payload bytes. `TextDecoder` decoding is not modelled, and names are compared as bytes.
- `writeString` and the other missing writer methods are a TypeError. The UTF-16 `v.length` of a string in a `[T]` write is `Unmodelled`.
- The three.js side effects of `addMesh`, `delMesh`, `delAllMeshes` and `delGUI` are left out: `castShadow`, `scene.add`, `removeFromParent`, `dispose` and `destroy`. Only the table updates and the throw of `destroy` on a missing panel are modelled. `Encode.AddHandle` accepts any reference as a mesh, including the default material, where `addMesh` would throw a TypeError on an object without `geometry`.
- Handlers other than `getOperationNamed` are a function parameter (`Extern`) from id and arguments to a result. What they do to the tables or the scene is not modelled.
- A name that clashes with an array property of `operations` (such as "length", "push" or a numeric string) is not modelled, neither when it is registered nor when `getOperationNamed` looks it up. Names are byte strings recorded in a map beside the array, so `IndexNamed` gives -1 for an unregistered "length", where the source would answer the truthy array length (or the `push` function).
- `getOperationNamed` with a non-string argument is `Unmodelled`: it would look up the JavaScript string conversion of the value.
- `readTypedObject` (`Threejs/src/index.js:81-88`) is never called by the core and is not modelled. `UntypedObject` calls the missing `readUntypedObject`, so it reads as a TypeError.
- A JavaScript object's inherited keys (such as `__proto__`) in `readDict` are not modelled. The dictionary is a plain map.
- `readString` uses the cursor as a position in the underlying buffer and ignores the view's `byteOffset`. The model reads from the view. The two agree because every view the viewer builds starts at byte 0.
- The surviving `writeArrayFloat32` recurses until `writeInt32` runs out of buffer. A buffer large enough to overflow the call stack first is not modelled.
- The WebSocket lifecycle (`onopen`, `onclose`, reconnect) and console logging are not modelled. `connection.send` is modelled as appending to `sent`.
