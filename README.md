# ferrugo, modelled in Dafny

ferrugo is a small Java virtual machine written in Rust. This project models
its deterministic integer-and-bytes core, plus the integer algorithms of the
example Java programs it runs. Each part is proved against a specification.

- **Class-file reader** (`src/class/classfile/read.rs` and the tag table in
  `constant.rs`). The reader decodes the `class` format of chapter 4 of The Java
  Virtual Machine Specification, Java SE 8 Edition.
  - Every structure gets a parse function from bytes to `(value, remaining
    bytes)`.
  - Big-endian integers, constant-pool entries, UTF-8 strings, verification
    types and stack-map frames also get an encoding, and the parse is proved
    to invert it. Attributes, `Code`, field and method info, the pool as a
    whole and the class file have no encoder; for those the model proves the
    count and layout guarantees of the reader instead.
  - `Reader.ClassFileReader` is a class with a byte sequence and a cursor. Each
    of its `Read*` methods advances the cursor exactly as its parse function
    says.
  - Reading past the end is a failure (`None`).
- **Lookups** over the parsed structures (`method.rs`, `class.rs`):
  - the first `Code` attribute of a method;
  - access-flag tests;
  - the two-level constant-pool lookup of a class's name.
- **Interpreter core** (`src/exec/vm.rs`).
  - The integer opcodes of `VM::run` form a step function over a machine state:
    the slot array `stack`, the base pointer `bp` and the current frame's
    `pc`/`sp`.
  - The `VM` class executes each opcode in place and is proved to match that
    step function.
  - Also modelled: the descriptor parameter counter, and the `bp`/`sp`
    bookkeeping of `run_invoke_static`.
- **Runtime structures**:
  - frames (`frame.rs`);
  - the object heap's id allocator (`objectheap.rs`);
  - the mark-and-sweep bookkeeping of the garbage collector (`gc/gc.rs`), over
    abstract pointer keys.
- **Example programs**:
  - the sieve of Eratosthenes;
  - Miller–Rabin with `modpow`;
  - one Game of Life generation;
  - the base-10^9 bignum adder and multiplier;
  - `fibo`.

  Java `int` arithmetic is modelled explicitly: `+` and `*` wrap at 32 bits,
  `/` and `%` truncate toward zero.

The "panic" cases of the Rust source that the model covers are failure results
(`None`, `Fault`). There are two exceptions:
- The indexing in `get_code_attribute` is a precondition instead:
  Methods.MethodInfo.GetCodeAttribute requires `attributes_count <= |attributes|`,
  and ClassFormat.ParsedMethodsHaveCounts proves that every method the reader
  builds meets it.
- The reader's short reads in the middle of a file are not modelled at all (see
  "## Left out"). The reader works on an in-memory byte sequence, not a
  buffered file.

The failure cases are:
- an out-of-range index;
- `unwrap` on `None`;
- `usize` underflow, as a debug build checks it (see "## Left out");
- `unimplemented!`;
- a short read at the end of the input.

## Model

| member | source | states |
|---|---|---|
| ConstantPool.ConstantType.Value | src/class/classfile/constant.rs:20-37 | every constant kind's tag byte is one of the fourteen tags of table 4.4-A |
| ConstantPool.FromTag | src/class/classfile/constant.rs:40-58 | a tag is accepted exactly when it is one of the fourteen valid tags, and the kind returned has that tag |
| ConstantPool.TagRoundTrip | src/class/classfile/constant.rs:19-58 | reading back the tag of any kind gives that kind |
| ConstantPool.ValueInjective | src/class/classfile/constant.rs:20-37 | distinct constant kinds have distinct tags |
| ConstantPool.Constant.GetUtf8 | src/class/classfile/constant.rs:114-119 | the string is present exactly for a `Utf8` entry, and it is that entry's string |
| ConstantPool.Constant.GetClassNameIndex | src/class/classfile/constant.rs:121-126 | the index is present exactly for a `ClassInfo` entry, and it is that entry's name index |
| ClassFiles.NewClassFile | src/class/classfile/classfile.rs:27-46 | the empty class file has every count, index and version zero and every table empty |
| Methods.MethodInfo.GetCodeAttribute | src/class/classfile/method.rs:23-31 | the result is present exactly when one of the first `attributes_count` attributes is `Code`, and it is the first such one |
| Methods.FirstCodeIndex | src/class/classfile/method.rs:24-30 | the scan stops at the first `Code` attribute in the range, or at its end |
| Methods.MethodInfo.CheckAccessFlags | src/class/classfile/method.rs:33-35 | no flag is set when the mask or the flags are zero |
| Methods.CheckSingleFlag | src/class/classfile/method.rs:33-35 | for a single-bit mask, the test is true exactly when that bit of `access_flags` is set |
| Methods.NewMethodInfo | src/class/classfile/method.rs:13-21 | a new method has zero flags and indices and no attributes |
| Methods.NewMethodHasNoCode | src/class/classfile/method.rs:13-31 | a new method has no `Code` attribute |
| Classes.Class.constructor | src/class/class.rs:11-15 | a new class holds the empty class file |
| Classes.Class.LoadClassfile | src/class/class.rs:17-22 | loading succeeds exactly when parsing did; the class file is replaced on success and left unchanged on failure |
| Classes.Class.GetName | src/class/class.rs:24-28 | the name is present exactly when `this_class` is in range and is a `ClassInfo` whose name index is in range and is `Utf8`; the name is that entry's string |
| Frames.Variable.GetInt | src/exec/frame.rs:41-48 | `Char` and `Short` are sign-extended, `Int` is returned unchanged, and every other variant (a panic in the source) gives no value |
| Frames.Frame.constructor | src/exec/frame.rs:15-23 | a new frame has `pc == 0`, `sp == 0`, no class, the empty method and an empty stack |
| Frames.Frame.InitStack | src/exec/frame.rs:25-29 | exactly 100 copies of `Int(1)` are appended after the existing entries, and nothing else changes |
| Frames.Ones | src/exec/frame.rs:26-28 | the pushed block has length n and every entry is `Int(1)` |
| Utf8Strings.DecodeFirst | src/class/classfile/read.rs:217-226 | one UTF-8 sequence is 1 to 4 bytes within the input, an ASCII byte decodes to itself, and the bytes consumed are exactly the encoding of the decoded character (no overlong form, surrogate or value above U+10FFFF is accepted) |
| Utf8Strings.DecodeFirstEncodeChar | src/class/classfile/read.rs:217-226 | the first character of any encoded character decodes back to it, consuming the whole encoding |
| Utf8Strings.DecodeEncode | src/class/classfile/read.rs:217-226 | strict decoding inverts UTF-8 encoding on every string |
| Utf8Strings.EncodeDecode | src/class/classfile/read.rs:217-226 | bytes that decode are the encoding of the decoded string; with DecodeEncode, decoding fails exactly on bytes that encode no string |
| Utf8Strings.DecodeAscii | src/class/classfile/read.rs:217-226 | ASCII bytes always decode, one character per byte with the same code |
| Format.ParseU8 | src/class/classfile/read.rs:611-620 | a byte is read exactly when one is left, and exactly one byte is consumed |
| Format.ParseU16 | src/class/classfile/read.rs:600-609 | two bytes are read exactly when two are left; the value is `(b0<<8)+b1` and exactly two bytes are consumed |
| Format.ParseU32 | src/class/classfile/read.rs:584-598 | four bytes are read exactly when four are left; the value is `(b0<<24)+(b1<<16)+(b2<<8)+b3` and exactly four bytes are consumed |
| Format.ParseU64 | src/class/classfile/read.rs:240-254 | two u32 reads consume exactly eight bytes and succeed exactly when eight are left |
| Format.ParseU16Bytes | src/class/classfile/read.rs:600-609 | reading the big-endian encoding of any u16 gives it back and leaves the rest |
| Format.ParseU32Bytes | src/class/classfile/read.rs:584-598 | reading the big-endian encoding of any u32 gives it back and leaves the rest |
| Format.ParseU64Bytes | src/class/classfile/read.rs:240-254 | the high and low words of a 64-bit pattern read back to that pattern |
| Format.LongFromHalves | src/class/classfile/read.rs:240-246 | a `Long` constant is `(high<<32)+low` taken as a two's-complement 64-bit value |
| Format.ParseUtf8 | src/class/classfile/read.rs:217-226 | with `length` the big-endian u16 at the front, the read succeeds exactly when `length` bytes follow and they decode as UTF-8; it then yields their decoding and leaves the bytes after them |
| Format.ParseUtf8AcceptsEncodings | src/class/classfile/read.rs:217-226 | a `Utf8` constant reads exactly when its `length` bytes are present and are the UTF-8 encoding of some string, which is the result (`None` for invalid UTF-8) |
| Format.ParseUtf8Bytes | src/class/classfile/read.rs:217-226 | a length-prefixed valid UTF-8 string reads back as its decoding, consuming exactly `length` bytes after the length |
| Format.ParseConstant | src/class/classfile/read.rs:152-276 | the constant read has the kind that was asked for, and at least one byte is consumed |
| Format.ParseEntry | src/class/classfile/read.rs:56-60 | an entry is read only after a valid tag and has the kind that tag names; an invalid tag gives `None` |
| Format.ParseEncodeIndexPair | src/class/classfile/read.rs:171-205 | the two-index constants read back from their encoding |
| Format.ParseEncodeIndex | src/class/classfile/read.rs:207-215 | the one-index constants read back from their encoding |
| Format.ParseEncodeWord | src/class/classfile/read.rs:228-238 | `Integer` (stored as the u32 read as an i32) and `Float` (kept as bits) read back from their encoding |
| Format.ParseEncodeDoubleWord | src/class/classfile/read.rs:240-254 | `Long` and `Double` read back from their eight-byte encoding |
| Format.ParseEncodeMethodHandle | src/class/classfile/read.rs:256-263 | a method handle reads back from its encoding |
| Format.ParseEncodeUtf8 | src/class/classfile/read.rs:217-226 | a `Utf8` constant reads back from its encoding |
| Format.ParseEncodeConstant | src/class/classfile/read.rs:152-276 | every encodable constant reads back from its body encoding |
| Format.ParseEncodeEntry | src/class/classfile/read.rs:56-60 | every encodable constant reads back from its tag-and-body encoding |
| Format.ParseVerificationType | src/class/classfile/read.rs:543-556 | only tags 1, 2, 3, 4 and 7 are read, each as the type with that tag; every other tag gives `None` |
| Format.ParseEncodeVerificationType | src/class/classfile/read.rs:543-556 | the five supported verification types read back from their tags |
| Format.ParseVerificationTypes | src/class/classfile/read.rs:520-528 | n reads give exactly n supported types |
| Format.ParseEncodeVerificationTypes | src/class/classfile/read.rs:520-528 | a list of supported verification types reads back from its encoding |
| Format.ParseCountedTypes | src/class/classfile/read.rs:519-528 | a u16 count is followed by exactly that many supported types |
| Format.ParseAppendBody | src/class/classfile/read.rs:502-512 | an append frame reads its offset and then exactly `k` locals |
| Format.ParseFullBody | src/class/classfile/read.rs:517-537 | a full frame's locals and stack lists are as long as their counts |
| Format.ParseStackMapFrame | src/class/classfile/read.rs:494-541 | the frame type selects the payload (0–63: none; 64–127: one type; 248–250: an offset; 252–254: `type-251` locals; 255: counted locals and stack); types 128–247 and 251 give `None` |
| Format.ParseEncodeCountedTypes | src/class/classfile/read.rs:519-528 | a counted list of types reads back from its encoding |
| Format.ParseEncodeAppendBody | src/class/classfile/read.rs:502-512 | an append-frame body reads back from its encoding |
| Format.ParseEncodeFullBody | src/class/classfile/read.rs:517-537 | a full-frame body reads back from its encoding |
| Format.ParseEncodeStackMapFrame | src/class/classfile/read.rs:494-541 | every well-formed stack-map frame reads back from its encoding |
| ClassFormat.ParseCount | src/class/classfile/read.rs:96-125 | a counted loop of n reads gives exactly n items |
| ClassFormat.ParseCountFails | src/class/classfile/read.rs:96-125 | once a prefix of the loop fails, the whole loop fails |
| ClassFormat.ParseCountStep | src/class/classfile/read.rs:96-125 | one more successful read appends one item |
| ClassFormat.ParseCountStop | src/class/classfile/read.rs:96-125 | a failing read inside the loop makes the loop fail (`?`) |
| ClassFormat.ParseCountAll | src/class/classfile/read.rs:96-125 | whatever every single read guarantees holds for each item of the loop |
| ClassFormat.ParseBytes | src/class/classfile/read.rs:354-356 | `code_length` bytes are read exactly when that many are left, and they are a prefix of the input |
| ClassFormat.ParseException | src/class/classfile/read.rs:567-582 | an exception-table entry is exactly eight bytes |
| ClassFormat.ParseLineNumber | src/class/classfile/read.rs:558-565 | a line-number entry is exactly four bytes |
| ClassFormat.ParseInnerClass | src/class/classfile/read.rs:453-464 | an inner-class entry is exactly eight bytes |
| ClassFormat.ParseElementValuePair | src/class/classfile/read.rs:480-492 | no element-value pair can be read (`read_element_value` is unimplemented) |
| ClassFormat.NoPairsReadable | src/class/classfile/read.rs:466-492 | an annotation with at least one element-value pair fails |
| ClassFormat.ParseAnnotation | src/class/classfile/read.rs:466-478 | an annotation that reads has no element-value pairs |
| ClassFormat.ParseStackMapFrames | src/class/classfile/read.rs:399-403 | n frames are read, and every one is well-formed |
| ClassFormat.ParseStackMapFramesFails | src/class/classfile/read.rs:399-403 | once a prefix of the frame loop fails, the loop fails |
| ClassFormat.ParseStackMapFramesStep | src/class/classfile/read.rs:399-403 | one more frame read appends one frame |
| ClassFormat.ParseStackMapFramesStop | src/class/classfile/read.rs:399-403 | a failing frame read makes the loop fail |
| ClassFormat.ParseVerificationTypesFails | src/class/classfile/read.rs:520-528 | once a prefix of the type loop fails, the loop fails |
| ClassFormat.ParseVerificationTypesStep | src/class/classfile/read.rs:520-528 | one more type read appends one type |
| ClassFormat.ParseVerificationTypesStop | src/class/classfile/read.rs:520-528 | a failing type read makes the loop fail |
| ClassFormat.ParseAttributeInfo | src/class/classfile/read.rs:326-347 | an attribute read has a name index naming, in the pool, the `Utf8` name of its kind, and tables as long as their counts |
| ClassFormat.ParseAttributeBody | src/class/classfile/read.rs:330-341 | the body read has the kind its name selects and well-formed tables; any name other than the nine handled gives `None` |
| ClassFormat.ParseLineNumberTable | src/class/classfile/read.rs:379-389 | the table is as long as its count |
| ClassFormat.ParseSourceFile | src/class/classfile/read.rs:391-394 | a `SourceFile` attribute is read and input is consumed |
| ClassFormat.ParseStackMapTable | src/class/classfile/read.rs:396-406 | the table has as many entries as its count, each a well-formed frame |
| ClassFormat.ParseSignature | src/class/classfile/read.rs:408-411 | a `Signature` attribute is read and input is consumed |
| ClassFormat.ParseExceptions | src/class/classfile/read.rs:413-423 | the exception index table is as long as its count |
| ClassFormat.ParseRuntimeVisibleAnnotations | src/class/classfile/read.rs:429-439 | the annotation list is as long as its count |
| ClassFormat.ParseInnerClasses | src/class/classfile/read.rs:441-451 | the class list is as long as its count |
| ClassFormat.ParseCode | src/class/classfile/read.rs:349-377 | `code.len() == code_length`, `exception_table.len() == exception_table_length`, `attributes.len() == attributes_count`, and the nested attributes are well-formed |
| ClassFormat.ParseCodeTables | src/class/classfile/read.rs:357-377 | the tables after the code bytes are as long as their counts |
| ClassFormat.ParseAttributes | src/class/classfile/read.rs:122-125 | n attribute reads give exactly n well-formed attributes |
| ClassFormat.ParseAttributesFails | src/class/classfile/read.rs:122-125 | once a prefix of the attribute loop fails, the loop fails |
| ClassFormat.ParseAttributesStep | src/class/classfile/read.rs:122-125 | one more attribute read appends one attribute |
| ClassFormat.ParseAttributesStop | src/class/classfile/read.rs:122-125 | a failing attribute read makes the loop fail |
| ClassFormat.ParseFieldInfo | src/class/classfile/read.rs:282-302 | a field's attribute list is as long as its count and well-formed |
| ClassFormat.ParseMethodInfo | src/class/classfile/read.rs:304-324 | a method's attribute list is as long as its count and well-formed |
| ClassFormat.ParseInterface | src/class/classfile/read.rs:212-215 | every interface entry read is a `ClassInfo` |
| ClassFormat.WideKinds | src/class/classfile/read.rs:74-80 | the entries followed by a placeholder are exactly the `Long` and `Double` constants |
| ClassFormat.PushNarrow | src/class/classfile/read.rs:68-79 | pushing one narrow entry keeps the pool layout |
| ClassFormat.PushWide | src/class/classfile/read.rs:68-78 | pushing a wide entry and its placeholder keeps the pool layout |
| ClassFormat.ParsePoolFrom | src/class/classfile/read.rs:54-80 | the loop keeps `constant_pool.len() == idx + 1`; slot 0 is the placeholder and every `Long`/`Double` is followed by exactly one placeholder (section 4.4.5 of the JVM specification) |
| ClassFormat.ParsePool | src/class/classfile/read.rs:51-80 | a pool read for count c has the two-slot layout and c or c+1 slots; it has c+1 exactly when the entry at index c-1 is a `Long`/`Double`, whose second slot then lies past the count |
| ClassFormat.WidePoolSlots | src/class/classfile/read.rs:54-80 | with count 3, a `Long` at index 1 gives the 3 slots `[None, Long, None]`; with count 2, the same `Long` gives one slot beyond the count |
| ClassFormat.PoolStep | src/class/classfile/read.rs:56-80 | one loop iteration advances `idx` by 2 after a wide entry and by 1 otherwise |
| ClassFormat.ParseClassBody | src/class/classfile/read.rs:83-98 | a class file read has the magic number, the pool and its count, and tables as long as their counts |
| ClassFormat.ParseMembers | src/class/classfile/read.rs:101-145 | only the fields, methods and attributes are filled in, each as long as its count |
| ClassFormat.ParsedClassFileWF | src/class/classfile/read.rs:39-146 | every class file read has the magic number, the pool layout of section 4.4.5 of the JVM specification and tables as long as their counts |
| ClassFormat.BadMagicRejected | src/class/classfile/read.rs:40-41 | without the magic number `0xCAFEBABE`, the read fails |
| ClassFormat.BadFirstTagRejected | src/class/classfile/read.rs:57-59 | an invalid first constant tag makes the read fail |
| ClassFormat.ParsedMethodsHaveCounts | src/class/classfile/read.rs:308-319 | every method read satisfies the precondition of `get_code_attribute` (`attributes_count <= attributes.len()`) |
| Reader.ClassFileReader.ReadU8 | src/class/classfile/read.rs:611-620 | the cursor advances over exactly what `ParseU8` consumes, and the result is its value |
| Reader.ClassFileReader.ReadU16 | src/class/classfile/read.rs:600-609 | as `ParseU16` |
| Reader.ClassFileReader.ReadU32 | src/class/classfile/read.rs:584-598 | as `ParseU32` |
| Reader.ClassFileReader.ReadBytes | src/class/classfile/read.rs:354-356 | as `ParseBytes` |
| Reader.ClassFileReader.ReadConstant | src/class/classfile/read.rs:152-169 | as `ParseConstant` |
| Reader.ClassFileReader.ReadDoubleWord | src/class/classfile/read.rs:240-254 | as `ParseU64` |
| Reader.ClassFileReader.ReadIndexPair | src/class/classfile/read.rs:171-205 | as `ParseConstant` on the two-index kinds |
| Reader.ClassFileReader.ReadConstantUtf8 | src/class/classfile/read.rs:217-226 | as `ParseConstant(Utf8, _)` |
| Reader.ClassFileReader.ReadConstantPool | src/class/classfile/read.rs:54-80 | as `ParsePool` |
| Reader.ClassFileReader.ReadException | src/class/classfile/read.rs:567-582 | as `ParseException` |
| Reader.ClassFileReader.ReadExceptionTable | src/class/classfile/read.rs:357-361 | as the counted loop of `ParseException` |
| Reader.ClassFileReader.ReadLineNumber | src/class/classfile/read.rs:558-565 | as `ParseLineNumber` |
| Reader.ClassFileReader.ReadLineNumberTableAttribute | src/class/classfile/read.rs:379-389 | as `ParseLineNumberTable` |
| Reader.ClassFileReader.ReadSourceFileAttribute | src/class/classfile/read.rs:391-394 | as `ParseSourceFile` |
| Reader.ClassFileReader.ReadSignatureAttribute | src/class/classfile/read.rs:408-411 | as `ParseSignature` |
| Reader.ClassFileReader.ReadExceptionsAttribute | src/class/classfile/read.rs:413-423 | as `ParseExceptions` |
| Reader.ClassFileReader.ReadClasses | src/class/classfile/read.rs:453-464 | as `ParseInnerClass` |
| Reader.ClassFileReader.ReadInnerClassesAttribute | src/class/classfile/read.rs:441-451 | as `ParseInnerClasses` |
| Reader.ClassFileReader.ReadElementValuePair | src/class/classfile/read.rs:480-492 | as `ParseElementValuePair`: always fails |
| Reader.ClassFileReader.ReadAnnotation | src/class/classfile/read.rs:466-478 | as `ParseAnnotation` |
| Reader.ClassFileReader.ReadRuntimeVisibleAnnotationsAttribute | src/class/classfile/read.rs:429-439 | as `ParseRuntimeVisibleAnnotations` |
| Reader.ClassFileReader.ReadVerificationTypeInfo | src/class/classfile/read.rs:543-556 | as `ParseVerificationType` |
| Reader.ClassFileReader.ReadVerificationTypes | src/class/classfile/read.rs:520-528 | as `ParseVerificationTypes` |
| Reader.ClassFileReader.ReadStackMapFrame | src/class/classfile/read.rs:494-541 | as `ParseStackMapFrame` |
| Reader.ClassFileReader.ReadFullFrame | src/class/classfile/read.rs:517-537 | as the full-frame case of `ParseStackMapFrame` |
| Reader.ClassFileReader.ReadStackMapTableAttribute | src/class/classfile/read.rs:396-406 | as `ParseStackMapTable` |
| Reader.ClassFileReader.ReadAttributeInfo | src/class/classfile/read.rs:326-347 | as `ParseAttributeInfo` |
| Reader.ClassFileReader.ReadAttributeBody | src/class/classfile/read.rs:330-341 | as `ParseAttributeBody` |
| Reader.ClassFileReader.ReadCodeAttribute | src/class/classfile/read.rs:349-377 | as `ParseCode` |
| Reader.ClassFileReader.ReadCodeTables | src/class/classfile/read.rs:357-377 | as `ParseCodeTables` |
| Reader.ClassFileReader.ReadAttributes | src/class/classfile/read.rs:122-125 | as `ParseAttributes` |
| Reader.ClassFileReader.ReadFieldInfo | src/class/classfile/read.rs:282-302 | as `ParseFieldInfo` |
| Reader.ClassFileReader.ReadMethodInfo | src/class/classfile/read.rs:304-324 | as `ParseMethodInfo` |
| Reader.ClassFileReader.ReadInterfaces | src/class/classfile/read.rs:95-98 | as the counted loop of `ParseInterface` |
| Reader.ClassFileReader.ReadFields | src/class/classfile/read.rs:104-107 | as the counted loop of `ParseFieldInfo` |
| Reader.ClassFileReader.ReadMethods | src/class/classfile/read.rs:113-116 | as the counted loop of `ParseMethodInfo` |
| Reader.ClassFileReader.Read | src/class/classfile/read.rs:39-146 | the result is `ParseClassFile` of the unread input, so it has every property `ParsedClassFileWF` proves |
| Reader.ClassFileReader.ReadPoolAndBody | src/class/classfile/read.rs:51-146 | as `ParsePoolAndBody` |
| Reader.ClassFileReader.ReadClassBody | src/class/classfile/read.rs:83-146 | as `ParseClassBody` |
| Reader.ClassFileReader.ReadMembers | src/class/classfile/read.rs:101-146 | as `ParseMembers` |
| Bytecode.Signed16 | src/exec/vm.rs:122-128 | the big-endian operand taken as a signed 16-bit value: congruent to the unsigned value, and negative exactly when the high bit is set |
| Bytecode.Push | src/exec/vm.rs:67-79 | a push faults exactly when the slot `bp+sp` is past the stack |
| Bytecode.Load | src/exec/vm.rs:108-114 | a load faults exactly when the local or the top slot is past the stack |
| Bytecode.Store | src/exec/vm.rs:94-107 | a store faults exactly when the stack is empty, or the top or the local is past the stack |
| Bytecode.Pop | src/exec/vm.rs:302-306 | `pop` faults exactly when `sp` is 0 |
| Bytecode.Dup | src/exec/vm.rs:307-312 | `dup` faults exactly when there is no top slot or no slot above it |
| Bytecode.Operands | src/exec/vm.rs:208-234 | the two operands are the integer values of the slots just under `bp+sp`, the top one second, and they exist exactly when both slots hold integers |
| Bytecode.Arith | src/exec/vm.rs:208-234 | `iadd`/`isub` fault exactly when the operands are missing |
| Bytecode.Jump | src/exec/vm.rs:313-317 | a jump faults exactly when its target is negative |
| Bytecode.IReturn | src/exec/vm.rs:381-384 | `ireturn` faults exactly when there is no top slot or `bp` is past the stack |
| Bytecode.IincAsWritten | src/exec/vm.rs:268-279 | as written, `iinc` applies to exactly the integer variants |
| Bytecode.Iinc | src/exec/vm.rs:268-279 | the incremented local is `Int(value + sign-extended constant)`, wrapped at 32 bits (section 6.5 of the JVM specification, `iinc`) |
| Bytecode.IincAsWrittenZeroExtends | src/exec/vm.rs:271-275 | as written, `iinc` by `0xFF` (-1) adds 255 to an `Int`, where the corrected step subtracts 1 |
| Bytecode.IincAsWrittenWrapsChar | src/exec/vm.rs:271-273 | as written, incrementing `Char(127)` wraps to -128, where the corrected step gives 128 |
| Bytecode.IincAgreesOnSmallSteps | src/exec/vm.rs:268-279 | with a non-negative constant and no overflow, the as-written and the corrected `iinc` agree |
| Bytecode.IincStep | src/exec/vm.rs:268-279 | `iinc` faults exactly when the local is past the stack or is not an integer |
| Bytecode.Operand | src/exec/vm.rs:202-207 | an operand byte exists exactly when it is inside the code |
| Bytecode.Offset | src/exec/vm.rs:313-317 | a branch offset is the signed 16-bit value of the two bytes after the opcode |
| Bytecode.StepShape | src/exec/vm.rs:63-403 | every step that continues ran a supported opcode, kept `bp` and the stack length, changed `sp` by that opcode's stack effect, and moved `pc` by its length (or, for a branch, to `pc+3` or `pc+offset`) |
| Bytecode.StepWritesOneSlot | src/exec/vm.rs:63-403 | a step changes at most one stack slot |
| Bytecode.StepReturnsOnlyOnReturn | src/exec/vm.rs:381-403 | the loop returns exactly on `return` or a successful `ireturn`, and stops as unsupported exactly on an opcode outside the integer subset |
| Bytecode.IconstStep | src/exec/vm.rs:67-79 | `iconst_k` writes `Int(opcode-3)` (-1..5) at `bp+sp` and advances `sp` and `pc` by 1 |
| Bytecode.PushConstantStep | src/exec/vm.rs:122-128 | `bipush` pushes the sign-extended byte and advances `pc` by 2; `sipush` pushes the signed 16-bit operand and advances `pc` by 3 |
| Bytecode.LoadStoreStep | src/exec/vm.rs:94-114 | `iload_n` copies local n to the top (sp+1); `istore_n` copies the top to local n (sp-1); both advance `pc` by 1; the indexed `istore` (here) and `iload` (vm.rs:174-180) do the same with the operand byte as n and advance `pc` by 2 |
| Bytecode.ArithStep | src/exec/vm.rs:208-234 | `iadd`/`isub` store the wrapped `val1 op val2` at `bp+sp-2` (with `val2` the top), decrement `sp` and advance `pc` |
| Bytecode.IincOnlyTouchesLocal | src/exec/vm.rs:268-279 | `iinc` changes only local `bp+index`, keeps `sp` and advances `pc` by 3 |
| Bytecode.BranchStep | src/exec/vm.rs:313-369 | `goto` always jumps; `ifeq` jumps on a zero top; `if_icmpge`/`if_icmpgt` compare the two tops. Taken branches go to `pc+offset` and others to `pc+3`; `ifeq` pops 1, the comparisons pop 2, `goto` pops none |
| Bytecode.ReturnStep | src/exec/vm.rs:381-391 | `return` ends the method unchanged; `ireturn` copies the top into slot `bp` |
| Bytecode.StepsMoreFuel | src/exec/vm.rs:63-403 | a run that ended with some fuel ends the same way with more |
| Bytecode.StepsSplit | src/exec/vm.rs:63-403 | running f+g steps is running f steps and resuming for g |
| Bytecode.AddConstantsReturnsFive | src/exec/vm.rs:67-79 | the code `iconst_2 iconst_3 iadd ireturn` returns `Int(5)` |
| Descriptors.ParamsNum | src/exec/vm.rs:776-803 | the counting loop computes `ParamSlots`, including its panics |
| Descriptors.CountOne | src/exec/vm.rs:780-795 | one loop iteration: stops at `)`, skips a class name, counts one character, or panics past the end |
| Descriptors.SkipClassName | src/exec/vm.rs:781-785 | an `L` is skipped to the next `;`, or it panics when there is none |
| Descriptors.ParamSlotsOfDescriptor | src/exec/vm.rs:776-803 | for a well-formed descriptor, the count is the parameters' slots (a class name counts 1, `J`/`D` count 1, `[` counts on its own) plus 1 for a receiver when not `invokestatic` |
| Descriptors.ParamSlotsExamples | src/exec/vm.rs:776-803 | `(II)I` counts 2, `(JD)V` counts 2, and `()V` counts 1 for a virtual call |
| Descriptors.ReturnsValueOfDescriptor | src/exec/vm.rs:827-831 | a descriptor "returns a value" exactly when its return type is not `V` |
| Descriptors.SlotsInParams | src/exec/vm.rs:778-796 | the loop counts the slots of every parameter up to `)` |
| Interpreter.CodeOf | src/exec/vm.rs:56-61 | code is found only where `get_code_attribute` finds a `Code` attribute |
| Interpreter.MaxLocals | src/exec/vm.rs:808-814 | `max_locals` is found exactly where the method has code |
| Interpreter.Layout | src/exec/vm.rs:776-831 | a call is laid out only when the parameter count succeeds and fits under the caller's `sp` |
| Interpreter.PrepareCall | src/exec/vm.rs:776-819 | the method computes the layout, including its panics |
| Interpreter.ArgumentsBecomeLocals | src/exec/vm.rs:804-819 | the callee's `bp` is at the caller's first argument; the callee starts with `sp = params_num + max_locals`, or `params_num` for a native method |
| Interpreter.ResultOnCallerTop | src/exec/vm.rs:818-831 | when the callee returns a value, it lands on the caller's new top slot |
| Interpreter.CallerStackEffect | src/exec/vm.rs:826-831 | the caller's `sp` becomes `former_sp - params_num`, plus 1 exactly when the descriptor does not end in `)V` |
| Interpreter.VM.constructor | src/exec/vm.rs:21-39 | a new VM has 1024 slots of `Int(0)`, `bp == 0` and one new frame |
| Interpreter.VM.ExecPush | src/exec/vm.rs:67-79 | the in-place push has the outcome `Push` gives and leaves exactly the state it describes |
| Interpreter.VM.ExecLoad | src/exec/vm.rs:108-114 | as `Load`, in place |
| Interpreter.VM.ExecStore | src/exec/vm.rs:94-107 | as `Store`, in place |
| Interpreter.VM.ExecPop | src/exec/vm.rs:302-306 | as `Pop`, in place |
| Interpreter.VM.ExecDup | src/exec/vm.rs:307-312 | as `Dup`, in place |
| Interpreter.VM.ExecArith | src/exec/vm.rs:208-234 | as `Arith`, in place |
| Interpreter.VM.ExecIinc | src/exec/vm.rs:268-279 | as `IincStep`, in place |
| Interpreter.VM.ExecGoto | src/exec/vm.rs:313-317 | as `Jump`, in place |
| Interpreter.VM.ExecIfEq | src/exec/vm.rs:335-345 | as `IfEq`, in place |
| Interpreter.VM.ExecIfCmp | src/exec/vm.rs:346-369 | as `IfCmp`, in place |
| Interpreter.VM.ExecIReturn | src/exec/vm.rs:381-384 | as `IReturn`, in place |
| Interpreter.VM.Step | src/exec/vm.rs:63-403 | one iteration of the `run` loop in place is `Bytecode.Step` on the machine state |
| Interpreter.VM.StepWide | src/exec/vm.rs:122-128 | the opcodes with operands, in place, as `Bytecode.Step` |
| Interpreter.VM.Run | src/exec/vm.rs:43-403 | `run` (with a step budget) ends in the result and state `RunMethod` gives |
| Interpreter.VM.RunCallee | src/exec/vm.rs:819-824 | the callee frame runs on the shared slot array from its own `bp`, and the frame stack is restored afterwards |
| Interpreter.VM.InvokeStatic | src/exec/vm.rs:696-831 | a call succeeds exactly when its layout does; then the callee runs from its layout, `bp` is restored, the caller's `sp` takes the layout's value and `pc` advances by 3; a failed layout changes nothing |
| ObjectHeaps.NewVariables | src/exec/objectheap.rs:28-37 | a new body has `field_count + 1` variables, slot 0 `Pointer(class)` and the rest `Int(0)` |
| ObjectHeaps.ObjectHeap.constructor | src/exec/objectheap.rs:18-23 | a new heap is empty with `id == 0` |
| ObjectHeaps.ObjectHeap.CreateObject | src/exec/objectheap.rs:25-46 | the heap id returned is the old `id`, which was unused; `id` grows by 1; the map gains just that key with a new body, and every other entry is unchanged; every key stays below `id` |
| ObjectHeaps.CreateTwo | src/exec/objectheap.rs:40-43 | two allocations give distinct, consecutive ids |
| Collectors.NewUnmarked | src/gc/gc.rs:46-56 | a new entry is `Unmarked`; a name ending in `Array` gives Array, in `ObjectBody` Object, in `Class` Class, and the type is `Unknown` exactly when the name ends in none of them |
| Collectors.SuffixesExclusive | src/gc/gc.rs:46-56 | no name ends in two of the three suffixes, so the order of the checks does not matter |
| Collectors.NewUnmarkedOfRuntimeTypes | src/gc/gc.rs:46-56 | the runtime's array, object-body and class type names get the types Array, Object and Class |
| Collectors.GetSize | src/gc/gc.rs:177-193 | the size is 4 × the element, variable or static count, and 0 for `Unknown` |
| Collectors.Retained | src/gc/gc.rs:95-109 | exactly the entries marked in the trace map survive, with their old info |
| Collectors.SweepCounterReleases | src/gc/gc.rs:102-105 | the counter falls, modulo 2^64, by the released size of every removed entry |
| Collectors.SweepCounterNoWrap | src/gc/gc.rs:102-105 | when the counter holds at least what is released, it falls by exactly that amount |
| Collectors.KeptOfRetained | src/gc/gc.rs:95-109 | a `retain` pass over every key in any order keeps exactly the marked entries |
| Collectors.RetainedExtremes | src/gc/gc.rs:95-109 | an empty trace frees everything, and tracing everything frees nothing |
| Collectors.TracedSurvives | src/gc/gc.rs:132-163 | a pointer that `trace_ptr` recorded survives the sweep unchanged |
| Collectors.Collector.constructor | src/gc/gc.rs:17-21 | the allocation map and the counter start empty and zero |
| Collectors.Collector.New | src/gc/gc.rs:59-67 | `new` registers the pointer as `Unmarked` with the type its name gives, and adds its size to the counter (mod 2^64) |
| Collectors.Collector.TracePtr | src/gc/gc.rs:132-163 | tracing fails exactly for an unregistered or `Unknown` pointer; otherwise the trace map records the pointer as `Marked` |
| Collectors.Collector.Free | src/gc/gc.rs:95-109 | `free` keeps exactly the marked entries and subtracts each removed entry's size |
| Collectors.Collector.MarkAndSweep | src/gc/gc.rs:69-81 | at most 16 KiB allocated changes nothing; above that, the sweep is `free` |
| EratosthenesSieve.NewSieve | examples/EratosthenesSieve.java:4-7 | `sieve[0]` is false and every other entry is true |
| EratosthenesSieve.CrossOut | examples/EratosthenesSieve.java:11-12 | the inner loop only clears entries: exactly the multiples of p from p² on |
| EratosthenesSieve.MarkComposites | examples/EratosthenesSieve.java:9-12 | afterwards `sieve[i]` is true exactly when `i+1` is prime |
| EratosthenesSieve.PrimeIffNoSmallFactor | examples/EratosthenesSieve.java:9-12 | below `i²`, a number is prime exactly when it has no factor d with `2 ≤ d` and `d² ≤ n` |
| EratosthenesSieve.Listed | examples/EratosthenesSieve.java:14-15 | the output lists exactly the `i+1` with `sieve[i]`, in increasing order |
| EratosthenesSieve.PrimesUpTo | examples/EratosthenesSieve.java:2-16 | the program prints exactly the primes up to `max`, in increasing order |
| MillerRabin.ModPow | examples/MillerRabin.java:25-33 | `modpow(b, p, m) == b^p mod m` and it lies in `[0, m)` |
| MillerRabin.ModPowStep | examples/MillerRabin.java:27-31 | one iteration keeps `result · base^power ≡ b^p (mod m)` |
| MillerRabin.ResidueProduct | examples/MillerRabin.java:28-29 | a product of two residues below 46340 fits a Java `int` |
| MillerRabin.StripTwos | examples/MillerRabin.java:6-7 | afterwards `d` is odd and `n-1 = d·2^s` |
| MillerRabin.DoublingBound | examples/MillerRabin.java:16 | doubling `t` keeps it at most `n-1` before the last doubling |
| MillerRabin.EvenIffShifted | examples/MillerRabin.java:19 | `t` is even exactly when it was doubled at least once |
| MillerRabin.SquareStep | examples/MillerRabin.java:15-16 | one inner iteration keeps `t = d·2^j` and `x = a^t mod n` |
| MillerRabin.RoundVerdict | examples/MillerRabin.java:14-19 | the verdict after the inner loop is exactly the strong-probable-prime test for the witness |
| MillerRabin.Round | examples/MillerRabin.java:10-19 | one round passes exactly when `n` is a strong probable prime to base `1+q` |
| MillerRabin.PrimeMiller | examples/MillerRabin.java:2-23 | 2 and 3 are accepted; other even numbers are rejected; an odd n is accepted exactly when all 20 witnesses pass |
| MillerRabin.OddPartFactors | examples/MillerRabin.java:6-7 | the odd part of x is odd and x is that odd part times a power of two |
| MillerRabin.SevenAccepted | examples/MillerRabin.java:10-19 | 7 passes the round with witness 2 |
| MillerRabin.NineRejected | examples/MillerRabin.java:10-19 | 9 fails the round with witness 2 |
| BigIntegers.FromInt | examples/BigInt.java:15-18 | `sign` is `n >= 0` and the list is one limb holding n |
| BigIntegers.LimbSumInRange | examples/BigInt.java:30-40 | with limbs below 10^9 and carry at most 1, the limb sum cannot overflow, and the new carry is 0 or 1 and the new limb is in `[0, 10^9)` |
| BigIntegers.AddLimbsValue | examples/BigInt.java:22-48 | the limbs of the sum are below 10^9, and its value is the sum of the values |
| BigIntegers.AddLimbsLength | examples/BigInt.java:42-45 | the sum has the length of the longer operand, plus 1 exactly when a final carry remains |
| BigIntegers.Accumulate | examples/BigInt.java:30-38 | one limb sum walks each operand list by one node |
| BigIntegers.Iterate | examples/BigInt.java:29-46 | one loop iteration emits the next limb of the sum and continues exactly when a list or the carry remains |
| BigIntegers.Add | examples/BigInt.java:22-49 | `add` builds a positive number whose limbs are the limb-wise sum with carries; its operands are not changed |
| BigIntegers.Mul | examples/BigInt.java:50-56 | `mul` is n repeated additions of `val` starting from 0 |
| BigIntegers.RepeatValue | examples/BigInt.java:50-56 | the value of `mul(val, n)` is `n · value(val)` (0 for n ≤ 0) |
| BigIntegers.FactorialLimbsValue | examples/BigInt.java:59-66 | the number `main` holds after step k is k! |
| BigIntegers.DigitsRoundTrip | examples/BigInt.java:8 | a limb prints as its decimal digits, without leading zeros, which read back to it |
| BigIntegers.ListStringMostSignificantFirst | examples/BigInt.java:7-9 | `asString` prints the limbs most significant first |
| GameOfLife.NeighbourCount | examples/GameOfLife.java:28-37 | the count is the number of live cells among the eight neighbours, between 0 and 8 |
| GameOfLife.NextCell | examples/GameOfLife.java:39-55 | the new state is rule B3/S23: a live cell survives with 2 or 3 neighbours, a dead one is born with exactly 3 |
| GameOfLife.ComputeNext | examples/GameOfLife.java:26-57 | every interior cell of `copy_grid` gets the next state of the same cell of `grid`, and the border of `copy_grid` is not written |
| GameOfLife.CopyBack | examples/GameOfLife.java:59-63 | afterwards `grid` equals `copy_grid` on every cell |
| GameOfLife.UpdateGrid | examples/GameOfLife.java:25-64 | each interior cell takes its B3/S23 successor from the old grid, the border is copied from the unwritten `copy_grid`, and the two grids end equal |
| GameOfLife.LiveNeighboursBound | examples/GameOfLife.java:28-38 | the neighbour count of an interior cell lies in `[0, 8]` |
| GameOfLife.Neighbours | examples/GameOfLife.java:30-37 | the neighbourhood is exactly the eight cells around `(x, y)`, all inside the grid |
| Fibonacci.FiboIsFib | examples/Hello.java:2-5 | up to 46, `fibo` computes the Fibonacci numbers without overflow |
| Fibonacci.FiboRecurrence | examples/Hello.java:3-4 | `fibo(n) == 1` for `n <= 2`, `fibo(n) == fibo(n-1) + fibo(n-2)` above, and `fibo(n) >= 1`, for n ≤ 46 |
| Fibonacci.MainValues | examples/Hello.java:27-28 | the values `main` prints for 1..20 fit an `int`, the largest being 6765 |
| Fibonacci.FiboWraps | examples/Hello.java:4 | `fibo(47)` wraps to a negative number |
| Fibonacci.Fib | examples/Hello.java:2-5 | the reference Fibonacci value is at least 1 |

## Left out

- The file opening of `ClassFileReader::new` is outside the model. The reader works on an in-memory byte sequence.
- `println!` tracing in `read` is left out, along with every other console output: `run_native_method`, `System.out.println` in the examples, `draw_grid`.
- Reader.ClassFileReader.ReadU16, Reader.ClassFileReader.ReadU32 (Format.ParseU16, Format.ParseU32) read from an in-memory sequence. Short reads at the reader's buffer boundary are not modelled:
  - the source reads the file through a `BufReader<File>`;
  - `read_u16`/`read_u32` call `read` once and then `assert_eq!` that 2 or 4 bytes came back;
  - `BufReader::read` returns only what is left in its 8 KiB buffer;
  - so a u32 starting at byte 8189–8191 of a larger file, or a u16 at byte 8191 (and likewise at each later refill of the buffer), comes back short and the program panics.

  The model reads such a value whole, so ParseClassFile can give a class file where the program crashes. A `read_exact` would behave as the model does.
- Reading past the end is a `None` result. In the source, `read_u8`/`read_u16`/`read_u32` panic on a short read.
- The `unimplemented!` paths are `None`: unknown attribute names, `read_element_value`, and verification tags 0, 5, 6 and 8.
- A `constant_pool_count` of 0 gives `None`. In the source, the u16 subtraction `constant_pool_count - 1` underflows and panics.
- The attribute length `attribute_length` is read and kept, but, as in the source, it does not delimit the body.
- The older copy under `src/classfile/` is not part of this model. It is not in the module tree.
  - The same holds for `classheap.rs`, `jit.rs`, `native_functions.rs`, `cfg.rs`, `main.rs`, `macros.rs`, `mod.rs` and `lib.rs`.
  - Their declarations are wiring, FFI or command-line handling.
- The interpreter covers the integer subset only. The following opcodes stop the model with an `Unsupported` outcome:
  - floating-point opcodes;
  - `ldc`;
  - field and static access;
  - `new`;
  - `invokevirtual`/`invokespecial` resolution.

  These go through raw pointers and class-heap code that is not part of this model.
- The callee of `run_invoke_static` and its class are parameters:
  - method resolution and `frame.class` selection are not modelled;
  - a class is an abstract key.
- `run` loops until a return. The model bounds the loop by a step budget (`fuel`); running out of fuel is a separate result, and it is not a behaviour of the source.
- Bytecode.Arith models Rust `i32` arithmetic as wrapping at 32 bits (a release build, and the JVM's own semantics). The overflow panic of a debug build is not modelled.
- Bytecode.Pop, Bytecode.Store, Bytecode.Arith and the other steps treat `usize` arithmetic on `bp`, `sp` and `pc` as a debug build does: an underflow (such as `frame.sp -= 1` on `pop` with `sp == 0`, vm.rs:304) is a `Fault`. A release build wraps instead, and the next push then writes slot `bp - 1` without a panic; that behaviour is not modelled. `i32` arithmetic, by contrast, wraps as in a release build and the JVM.
- Bytecode.IincStep runs the JVM's `iinc` (Bytecode.Iinc: the constant sign-extended, the sum an `Int` wrapped at 32 bits), not the source's as written (Bytecode.IincAsWritten, see "## Findings"). Bytecode.Step, Interpreter.VM.ExecIinc, Interpreter.VM.Step, Interpreter.VM.StepWide and Interpreter.VM.Run inherit this: a run with a negative `iinc` constant, or with a `Char`/`Short` local that `iinc` pushes past its width, ends differently from the program.
- Bytecode.Jump makes a branch to a negative `pc` fault at once. The source wraps the `usize` and panics at the next fetch.
- Descriptors.ParamsNum uses one length for the loop bound and the indexing. The source bounds its loop by `descriptor.len()`, a byte count, but indexes with `chars().nth(i)`, a character index. The two differ only for a non-ASCII descriptor with no `)`, where the source panics at `unwrap` once `i` passes the last character; the model then counts on to the character length.
- Descriptors.ParamsNum counts `J` and `D` as one slot. This is what the source does (its own comment marks it as unfinished).
  - A `[` counts as a slot of its own, so an array parameter counts twice.
  - This is the code's behaviour, kept as is.
- Frames.Variable.GetInt uses a `Variable` that is the union of the variants used across the runtime: `Char`, `Short`, `Int`, `Float`, `Double`, `Object`, `Pointer`.
  - `frame.rs` declares only the first four; for the other three, `get_int` has no case and gives `None` here.
  - `Object` and `Pointer` hold abstract keys.
- ObjectHeaps.ObjectHeap.CreateObject does not model `usize` overflow of `id`. The field count `get_object_field_count` is a parameter.
  - `ObjectBody.variables` follows `objectheap.rs`, which uses a vector.
- Collectors.Collector.Free leaves some source behaviour out:
  - `size_of_val` sizes are a parameter;
  - the iteration order of the `HashMap` is a parameter;
  - the atomic counter wraps modulo 2^64.
  - No claim is made that the counter balances.
- Collectors.Collector.TracePtr records only the traced pointer. The recursion into the children of arrays, objects and classes is left out; it goes through raw pointer casts.
- Collectors.Collector.New takes a fresh pointer as a precondition, standing in for a new `Box`. `Box::into_raw`, `Box::from_raw` and `thread_local!` are not modelled.
- Methods.MethodInfo.CheckAccessFlags states only the zero cases in its own contract. The exact bit test is proved for single-bit masks (Methods.CheckSingleFlag), which are the masks the runtime passes.
- MillerRabin.ModPow requires `m <= 46340`, so that `base * base` cannot overflow a Java `int`. The program's `main` stays below 30000.
- MillerRabin.PrimeMiller requires `n >= 2`: `prime_miller(1)` loops forever, because `d` becomes 0.
  - The `Math.random()` witnesses are the parameter `qs`.
  - That a strong probable prime is prime (the test's soundness) is not proved.
- EratosthenesSieve.PrimesUpTo takes `max` as a parameter (the program fixes 100000) and requires `max < 2^30`, so that `(i+1)*k` cannot overflow.
- BigIntegers.Add models the linked lists as sequences of limbs, least significant first. In-place node updates, aliasing and the `null` tests are not modelled; the list of `c` is built fresh, as in the source.
- BigIntegers.Mul ignores its receiver, as the source does.
- BigIntegers.ListStringMostSignificantFirst is about limb order only. Each limb prints in plain decimal, without zero padding to nine digits, and is followed by a space, as in the source. A number built by `BigInteger(n)` with n < 0 prints with two minus signs: the sign prefix and the limb's own.
- Fibonacci.FiboRecurrence holds only up to 46. `fibo(47)` overflows the `int` sum and wraps (Fibonacci.FiboWraps), so "`fibo(n) >= 1` for all n" is false as written.
- `arctan`, `calc_pi`, the path tracer `SmallPT.java` and the floating-point opcodes: floating point.
- `fill_with_random` and the `main` methods of the examples: randomness and console output.
- `GameOfLife` boolean arrays are modelled as one `array2<bool>` per grid, indexed `[x, y]`.

## Findings

| source | as written | input that shows it | evidently intended | confidence | as-written member | corrected member |
|---|---|---|---|---|---|---|
| src/exec/vm.rs:268-279 | `iinc` converts its constant byte with `u8 as i16` / `u8 as i32` for `Short` and `Int` locals, which zero-extends it; each sum stays in the local's own width, so `Char` and `Short` locals wrap at 8 and 16 bits | `iinc` with constant `0xFF` (-1) on `Int(5)` gives `Int(260)`; `iinc` by 1 on `Char(127)` gives `Char(-128)` | the constant is sign-extended and added in 32-bit `int` arithmetic (section 6.5 of The Java Virtual Machine Specification, `iinc`): `Int(4)` and `Int(128)` | not executed | Bytecode.IincAsWritten (with Bytecode.IincAsWrittenZeroExtends and Bytecode.IincAsWrittenWrapsChar) | Bytecode.Iinc (used by Bytecode.IincStep and Bytecode.Step; Bytecode.IincOnlyTouchesLocal) |
