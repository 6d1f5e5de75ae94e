/** The byte layout the class-file reader decodes (chapter 4 of The Java
    Virtual Machine Specification, Java SE 8 Edition): big-endian integers,
    constant-pool entries, verification types and stack-map frames. Each
    structure has a parse function from the input bytes to the value read and
    the bytes that follow it, and an encoding that the parse function inverts. */
module Format {
  import opened Base
  import opened ConstantPool
  import opened Attributes
  import Utf8Strings

  /** Two bytes, most significant first. */
  function BE16(b0: byte, b1: byte): u16
  {
    b0 * 0x100 + b1
  }

  /** Four bytes, most significant first. */
  function BE32(b0: byte, b1: byte, b2: byte, b3: byte): u32
  {
    BE16(b0, b1) * 0x1_0000 + BE16(b2, b3)
  }

  /** Two 32-bit halves, high first, as one 64-bit pattern. */
  function Join64(high: u32, low: u32): u64
  {
    high * 0x1_0000_0000 + low
  }

  /** The big-endian bytes of a 16-bit value. */
  function U16Bytes(x: u16): (r: seq<byte>)
    ensures |r| == 2 && BE16(r[0], r[1]) == x
  {
    [x / 0x100, x % 0x100]
  }

  /** The big-endian bytes of a 32-bit value. */
  function U32Bytes(x: u32): (r: seq<byte>)
    ensures |r| == 4 && BE32(r[0], r[1], r[2], r[3]) == x
  {
    U16Bytes(x / 0x1_0000) + U16Bytes(x % 0x1_0000)
  }

  /** The big-endian bytes of a 64-bit pattern. */
  function U64Bytes(x: u64): (r: seq<byte>)
    ensures |r| == 8
  {
    U32Bytes(x / 0x1_0000_0000) + U32Bytes(x % 0x1_0000_0000)
  }

  // Parse functions: the value read and the bytes after it, or None when the
  // bytes run out or do not form the structure.

  function ParseU8(s: seq<byte>): (r: Option<(byte, seq<byte>)>)
    ensures r.Some? <==> |s| >= 1
    ensures r.Some? ==> r.value == (s[0], s[1..])
  {
    if |s| < 1 then None else Some((s[0], s[1..]))
  }

  function ParseU16(s: seq<byte>): (r: Option<(u16, seq<byte>)>)
    ensures r.Some? <==> |s| >= 2
    ensures r.Some? ==> r.value.0 == (s[0] as int) * 0x100 + s[1] && r.value.1 == s[2..]
  {
    if |s| < 2 then None else Some((BE16(s[0], s[1]), s[2..]))
  }

  function ParseU32(s: seq<byte>): (r: Option<(u32, seq<byte>)>)
    ensures r.Some? <==> |s| >= 4
    ensures r.Some? ==> r.value.0 == (s[0] as int) * 0x100_0000 + (s[1] as int) * 0x1_0000 + (s[2] as int) * 0x100 + s[3]
    ensures r.Some? ==> r.value.1 == s[4..]
  {
    if |s| < 4 then None else Some((BE32(s[0], s[1], s[2], s[3]), s[4..]))
  }

  /** Two u32 reads, high half first, joined. */
  function ParseU64(s: seq<byte>): (r: Option<(u64, seq<byte>)>)
    ensures r.Some? <==> |s| >= 8
    ensures r.Some? ==> r.value.1 == s[8..]
  {
    match ParseU32(s)
    case None => None
    case Some((high, t)) =>
      match ParseU32(t)
      case None => None
      case Some((low, u)) => Some((Join64(high, low), u))
  }

  /** A u16 length, that many bytes, and their strict UTF-8 decoding. */
  function ParseUtf8(s: seq<byte>): (r: Option<(string, seq<byte>)>)
    ensures r.Some? ==> |r.value.1| <= |s| - 2
    ensures |s| < 2 ==> r.None?
    ensures |s| >= 2 ==>
              var len := (s[0] as int) * 0x100 + s[1];
              (r.Some? <==> len <= |s| - 2 && Utf8Strings.Decode(s[2..2 + len]).Some?) &&
              (r.Some? ==> r.value == (Utf8Strings.Decode(s[2..2 + len]).value, s[2 + len..]))
  {
    match ParseU16(s)
    case None => None
    case Some((len, t)) =>
      if |t| < len then None
      else
        assert t[..len] == s[2..2 + len] && t[len..] == s[2 + len..];
        match Utf8Strings.Decode(t[..len])
        case None => None
        case Some(str) => Some((str, t[len..]))
  }

  lemma ParseU16Bytes(x: u16, rest: seq<byte>)
    ensures ParseU16(U16Bytes(x) + rest) == Some((x, rest))
  {
    var s := U16Bytes(x) + rest;
    assert s[0] == U16Bytes(x)[0] && s[1] == U16Bytes(x)[1];
    assert s[2..] == rest;
  }

  lemma ParseU32Bytes(x: u32, rest: seq<byte>)
    ensures ParseU32(U32Bytes(x) + rest) == Some((x, rest))
  {
    var e := U32Bytes(x);
    var s := e + rest;
    assert s[0] == e[0] && s[1] == e[1] && s[2] == e[2] && s[3] == e[3];
    assert s[4..] == rest;
  }

  lemma ParseU64Bytes(x: u64, rest: seq<byte>)
    ensures ParseU64(U64Bytes(x) + rest) == Some((x, rest))
  {
    var high := U32Bytes(x / 0x1_0000_0000);
    var low := U32Bytes(x % 0x1_0000_0000);
    assert U64Bytes(x) + rest == high + (low + rest);
    ParseU32Bytes(x / 0x1_0000_0000, low + rest);
    ParseU32Bytes(x % 0x1_0000_0000, rest);
  }

  /** A `Long` constant is its high word shifted up by 32 bits plus its low
      word, read as a two's-complement 64-bit value. */
  lemma LongFromHalves(high: u32, low: u32, rest: seq<byte>)
    ensures ParseConstant(ConstantType.Long, U32Bytes(high) + U32Bytes(low) + rest)
            == Some((LongInfo(Wrap64(high * 0x1_0000_0000 + low)), rest))
  {
    var s := U32Bytes(high) + U32Bytes(low) + rest;
    assert s == U32Bytes(high) + (U32Bytes(low) + rest);
    assert ParseU64(s) == Some((Join64(high, low), rest)) by {
      ParseU32Bytes(high, U32Bytes(low) + rest);
      ParseU32Bytes(low, rest);
    }
  }

  /** A string whose encoding fits a u16 length reads back unchanged. */
  lemma ParseUtf8Bytes(e: seq<byte>, str: string, rest: seq<byte>)
    requires |e| < 0x1_0000 && Utf8Strings.Decode(e) == Some(str)
    ensures ParseUtf8(U16Bytes(|e|) + e + rest) == Some((str, rest))
  {
    assert U16Bytes(|e|) + e + rest == U16Bytes(|e|) + (e + rest);
    ParseU16Bytes(|e|, e + rest);
    assert (e + rest)[..|e|] == e && (e + rest)[|e|..] == rest;
  }

  /** A `Utf8` constant reads exactly when its `length` bytes are present and
      are the UTF-8 encoding of some string; that string is the result. */
  lemma ParseUtf8AcceptsEncodings(s: seq<byte>)
    requires |s| >= 2
    ensures var len := (s[0] as int) * 0x100 + s[1];
            ParseUtf8(s).Some? <==>
              len <= |s| - 2 && exists str :: Utf8Strings.Encode(str) == s[2..2 + len]
    ensures ParseUtf8(s).Some? ==>
              Utf8Strings.Encode(ParseUtf8(s).value.0) == s[2..2 + (s[0] as int) * 0x100 + s[1]]
  {
    var len := (s[0] as int) * 0x100 + s[1];
    if ParseUtf8(s).Some? {
      Utf8Strings.EncodeDecode(s[2..2 + len], ParseUtf8(s).value.0);
    }
    if len <= |s| - 2 && exists str :: Utf8Strings.Encode(str) == s[2..2 + len] {
      var str :| Utf8Strings.Encode(str) == s[2..2 + len];
      Utf8Strings.DecodeEncode(str);
    }
  }

  /** The body of a constant-pool entry of kind ty, after its tag byte. */
  function ParseConstant(ty: ConstantType, s: seq<byte>): (r: Option<(Constant, seq<byte>)>)
    ensures r.Some? ==> |r.value.1| < |s| && r.value.0.Type() == Some(ty)
  {
    match ty
    case Methodref =>
      (match ParseU16(s)
       case None => None
       case Some((a, t)) =>
         match ParseU16(t)
         case None => None
         case Some((b, u)) => Some((MethodrefInfo(a, b), u)))
    case Fieldref =>
      (match ParseU16(s)
       case None => None
       case Some((a, t)) =>
         match ParseU16(t)
         case None => None
         case Some((b, u)) => Some((FieldrefInfo(a, b), u)))
    case InterfaceMethodref =>
      (match ParseU16(s)
       case None => None
       case Some((a, t)) =>
         match ParseU16(t)
         case None => None
         case Some((b, u)) => Some((InterfaceMethodrefInfo(a, b), u)))
    case String =>
      (match ParseU16(s)
       case None => None
       case Some((a, t)) => Some((StringInfo(a), t)))
    case Class =>
      (match ParseU16(s)
       case None => None
       case Some((a, t)) => Some((ClassInfo(a), t)))
    case Utf8 =>
      (match ParseUtf8(s)
       case None => None
       case Some((str, t)) => Some((Utf8Info(str), t)))
    case NameAndType =>
      (match ParseU16(s)
       case None => None
       case Some((a, t)) =>
         match ParseU16(t)
         case None => None
         case Some((b, u)) => Some((NameAndTypeInfo(a, b), u)))
    case Integer =>
      (match ParseU32(s)
       case None => None
       case Some((x, t)) => Some((IntegerInfo(Wrap32(x)), t)))
    case Float =>
      (match ParseU32(s)
       case None => None
       case Some((x, t)) => Some((FloatInfo(x), t)))
    case Long =>
      (match ParseU64(s)
       case None => None
       case Some((x, t)) => Some((LongInfo(Wrap64(x)), t)))
    case Double =>
      (match ParseU64(s)
       case None => None
       case Some((x, t)) => Some((DoubleInfo(x), t)))
    case MethodHandle =>
      (match ParseU8(s)
       case None => None
       case Some((k, t)) =>
         match ParseU16(t)
         case None => None
         case Some((a, u)) => Some((MethodHandleInfo(k, a), u)))
    case MethodType =>
      (match ParseU16(s)
       case None => None
       case Some((a, t)) => Some((MethodTypeInfo(a), t)))
    case InvokeDynamic =>
      (match ParseU16(s)
       case None => None
       case Some((a, t)) =>
         match ParseU16(t)
         case None => None
         case Some((b, u)) => Some((InvokeDynamicInfo(a, b), u)))
  }

  /** One whole constant-pool entry: the tag byte, then the body of that kind.
      A tag that table 4.4-A does not assign is a failure. */
  function ParseEntry(s: seq<byte>): (r: Option<(Constant, seq<byte>)>)
    ensures r.Some? ==> |s| > 0 && s[0] in ValidTags && r.value.0.Type() == FromTag(s[0])
    ensures r.Some? ==> |r.value.1| < |s|
    ensures |s| > 0 && s[0] !in ValidTags ==> r.None?
  {
    match ParseU8(s)
    case None => None
    case Some((tag, t)) =>
      match FromTag(tag)
      case None => None
      case Some(ty) => ParseConstant(ty, t)
  }

  /** The entries the reader can write back out: anything but the `Empty`
      placeholder, with a string whose encoding fits a 16-bit length. */
  predicate Encodable(c: Constant)
  {
    c != Empty && (c.Utf8Info? ==> |Utf8Strings.Encode(c.s)| < 0x1_0000)
  }

  /** The body bytes of a constant-pool entry. */
  function EncodeConstant(c: Constant): seq<byte>
    requires Encodable(c)
  {
    match c
    case MethodrefInfo(a, b) => U16Bytes(a) + U16Bytes(b)
    case FieldrefInfo(a, b) => U16Bytes(a) + U16Bytes(b)
    case InterfaceMethodrefInfo(a, b) => U16Bytes(a) + U16Bytes(b)
    case StringInfo(a) => U16Bytes(a)
    case ClassInfo(a) => U16Bytes(a)
    case Utf8Info(str) => U16Bytes(|Utf8Strings.Encode(str)|) + Utf8Strings.Encode(str)
    case NameAndTypeInfo(a, b) => U16Bytes(a) + U16Bytes(b)
    case IntegerInfo(i) => U32Bytes(i % 0x1_0000_0000)
    case FloatInfo(f) => U32Bytes(f)
    case LongInfo(l) => U64Bytes(l % 0x1_0000_0000_0000_0000)
    case DoubleInfo(u) => U64Bytes(u)
    case MethodHandleInfo(k, a) => [k] + U16Bytes(a)
    case MethodTypeInfo(a) => U16Bytes(a)
    case InvokeDynamicInfo(a, b) => U16Bytes(a) + U16Bytes(b)
  }

  /** A whole entry: tag byte and body. */
  function EncodeEntry(c: Constant): seq<byte>
    requires Encodable(c)
  {
    [c.Type().value.Value()] + EncodeConstant(c)
  }

  lemma Wrap32Mod(i: i32)
    ensures Wrap32(i % 0x1_0000_0000) == i
  {
  }

  lemma Wrap64Mod(l: i64)
    ensures Wrap64(l % 0x1_0000_0000_0000_0000) == l
  {
  }

  // One round-trip lemma per body layout; ParseEncodeConstant dispatches to them.

  lemma ParseU16PairBytes(a: u16, b: u16, rest: seq<byte>)
    ensures ParseU16(U16Bytes(a) + U16Bytes(b) + rest) == Some((a, U16Bytes(b) + rest))
    ensures ParseU16(U16Bytes(b) + rest) == Some((b, rest))
  {
    assert U16Bytes(a) + U16Bytes(b) + rest == U16Bytes(a) + (U16Bytes(b) + rest);
    ParseU16Bytes(a, U16Bytes(b) + rest);
    ParseU16Bytes(b, rest);
  }

  lemma ParseEncodeIndexPair(c: Constant, rest: seq<byte>)
    requires c.MethodrefInfo? || c.FieldrefInfo? || c.InterfaceMethodrefInfo? ||
             c.NameAndTypeInfo? || c.InvokeDynamicInfo?
    ensures ParseConstant(c.Type().value, EncodeConstant(c) + rest) == Some((c, rest))
  {
    match c
    case MethodrefInfo(a, b) => ParseU16PairBytes(a, b, rest);
    case FieldrefInfo(a, b) => ParseU16PairBytes(a, b, rest);
    case InterfaceMethodrefInfo(a, b) => ParseU16PairBytes(a, b, rest);
    case NameAndTypeInfo(a, b) => ParseU16PairBytes(a, b, rest);
    case InvokeDynamicInfo(a, b) => ParseU16PairBytes(a, b, rest);
  }

  lemma ParseEncodeIndex(c: Constant, rest: seq<byte>)
    requires c.StringInfo? || c.ClassInfo? || c.MethodTypeInfo?
    ensures ParseConstant(c.Type().value, EncodeConstant(c) + rest) == Some((c, rest))
  {
    match c
    case StringInfo(a) => ParseU16Bytes(a, rest);
    case ClassInfo(a) => ParseU16Bytes(a, rest);
    case MethodTypeInfo(a) => ParseU16Bytes(a, rest);
  }

  lemma ParseEncodeWord(c: Constant, rest: seq<byte>)
    requires c.IntegerInfo? || c.FloatInfo?
    ensures ParseConstant(c.Type().value, EncodeConstant(c) + rest) == Some((c, rest))
  {
    match c
    case IntegerInfo(i) =>
      ParseU32Bytes(i % 0x1_0000_0000, rest);
      Wrap32Mod(i);
    case FloatInfo(f) => ParseU32Bytes(f, rest);
  }

  lemma ParseEncodeDoubleWord(c: Constant, rest: seq<byte>)
    requires c.LongInfo? || c.DoubleInfo?
    ensures ParseConstant(c.Type().value, EncodeConstant(c) + rest) == Some((c, rest))
  {
    match c
    case LongInfo(l) =>
      ParseU64Bytes(l % 0x1_0000_0000_0000_0000, rest);
      Wrap64Mod(l);
    case DoubleInfo(u) => ParseU64Bytes(u, rest);
  }

  lemma ParseEncodeMethodHandle(k: byte, a: u16, rest: seq<byte>)
    ensures ParseConstant(MethodHandle, EncodeConstant(MethodHandleInfo(k, a)) + rest)
            == Some((MethodHandleInfo(k, a), rest))
  {
    var s := EncodeConstant(MethodHandleInfo(k, a)) + rest;
    assert s == [k] + (U16Bytes(a) + rest);
    assert s[1..] == U16Bytes(a) + rest;
    ParseU16Bytes(a, rest);
  }

  lemma ParseEncodeUtf8(str: string, rest: seq<byte>)
    requires Encodable(Utf8Info(str))
    ensures ParseConstant(Utf8, EncodeConstant(Utf8Info(str)) + rest) == Some((Utf8Info(str), rest))
  {
    Utf8Strings.DecodeEncode(str);
    ParseUtf8Bytes(Utf8Strings.Encode(str), str, rest);
  }

  /** Reading back the body of any encodable entry gives the entry and stops
      right after its bytes, whatever follows them. */
  lemma ParseEncodeConstant(c: Constant, rest: seq<byte>)
    requires Encodable(c)
    ensures ParseConstant(c.Type().value, EncodeConstant(c) + rest) == Some((c, rest))
  {
    match c
    case MethodrefInfo(_, _) | FieldrefInfo(_, _) | InterfaceMethodrefInfo(_, _)
       | NameAndTypeInfo(_, _) | InvokeDynamicInfo(_, _) =>
      ParseEncodeIndexPair(c, rest);
    case StringInfo(_) | ClassInfo(_) | MethodTypeInfo(_) => ParseEncodeIndex(c, rest);
    case IntegerInfo(_) | FloatInfo(_) => ParseEncodeWord(c, rest);
    case LongInfo(_) | DoubleInfo(_) => ParseEncodeDoubleWord(c, rest);
    case MethodHandleInfo(k, a) => ParseEncodeMethodHandle(k, a, rest);
    case Utf8Info(str) => ParseEncodeUtf8(str, rest);
  }

  /** The same for a whole entry, tag byte included. */
  lemma ParseEncodeEntry(c: Constant, rest: seq<byte>)
    requires Encodable(c)
    ensures ParseEntry(EncodeEntry(c) + rest) == Some((c, rest))
  {
    var t := c.Type().value;
    var s := EncodeEntry(c) + rest;
    assert s == [t.Value()] + (EncodeConstant(c) + rest);
    assert s[0] == t.Value() && s[1..] == EncodeConstant(c) + rest;
    TagRoundTrip(t);
    ParseEncodeConstant(c, rest);
  }

  // Verification types and stack-map frames (section 4.7.4).

  /** The verification types the reader handles: tags 1, 2, 3, 4 and 7. */
  predicate SupportedType(v: VerificationTypeInfo)
  {
    v.Integer? || v.Float? || v.Double? || v.Long? || v.Object?
  }

  predicate AllSupported(vs: seq<VerificationTypeInfo>)
  {
    forall i :: 0 <= i < |vs| ==> SupportedType(vs[i])
  }

  /** The `verification_type_info` tag of each type (table 4.7.4 order). */
  function TypeTag(v: VerificationTypeInfo): byte
  {
    match v
    case Top => 0
    case Integer => 1
    case Float => 2
    case Double => 3
    case Long => 4
    case Null => 5
    case UninitializedThis => 6
    case Object(_) => 7
    case Uninitialized => 8
  }

  /** A tag byte, and for `Object` a u16 constant-pool index; the other tags
      are failures. */
  function ParseVerificationType(s: seq<byte>): (r: Option<(VerificationTypeInfo, seq<byte>)>)
    ensures r.Some? ==> |s| > 0 && |r.value.1| < |s| && SupportedType(r.value.0) && TypeTag(r.value.0) == s[0]
    ensures |s| > 0 && s[0] !in {1, 2, 3, 4, 7} ==> r.None?
  {
    match ParseU8(s)
    case None => None
    case Some((tag, t)) =>
      if tag == 1 then Some((VerificationTypeInfo.Integer, t))
      else if tag == 2 then Some((VerificationTypeInfo.Float, t))
      else if tag == 3 then Some((VerificationTypeInfo.Double, t))
      else if tag == 4 then Some((VerificationTypeInfo.Long, t))
      else if tag == 7 then
        (match ParseU16(t)
         case None => None
         case Some((index, u)) => Some((Object(index), u)))
      else None
  }

  function EncodeVerificationType(v: VerificationTypeInfo): seq<byte>
    requires SupportedType(v)
  {
    [TypeTag(v)] + (if v.Object? then U16Bytes(v.cpoolIndex) else [])
  }

  lemma ParseEncodeVerificationType(v: VerificationTypeInfo, rest: seq<byte>)
    requires SupportedType(v)
    ensures ParseVerificationType(EncodeVerificationType(v) + rest) == Some((v, rest))
  {
    var tail := (if v.Object? then U16Bytes(v.cpoolIndex) else []) + rest;
    var s := EncodeVerificationType(v) + rest;
    assert s == [TypeTag(v)] + tail;
    assert s[0] == TypeTag(v) && s[1..] == tail;
    if v.Object? {
      ParseU16Bytes(v.cpoolIndex, rest);
    }
  }

  /** n verification types in a row, read first to last as the reader's loop does. */
  function ParseVerificationTypes(s: seq<byte>, n: nat): (r: Option<(seq<VerificationTypeInfo>, seq<byte>)>)
    ensures r.Some? ==> |r.value.0| == n && AllSupported(r.value.0) && |r.value.1| <= |s|
    ensures r.Some? && n > 0 ==> |r.value.1| < |s|
  {
    if n == 0 then Some(([], s))
    else
      match ParseVerificationTypes(s, n - 1)
      case None => None
      case Some((vs, t)) =>
        match ParseVerificationType(t)
        case None => None
        case Some((v, u)) => Some((vs + [v], u))
  }

  function EncodeVerificationTypes(vs: seq<VerificationTypeInfo>): seq<byte>
    requires AllSupported(vs)
  {
    if vs == [] then []
    else EncodeVerificationTypes(vs[..|vs| - 1]) + EncodeVerificationType(vs[|vs| - 1])
  }

  lemma {:induction false} ParseEncodeVerificationTypes(vs: seq<VerificationTypeInfo>, rest: seq<byte>)
    requires AllSupported(vs)
    ensures ParseVerificationTypes(EncodeVerificationTypes(vs) + rest, |vs|) == Some((vs, rest))
  {
    if vs != [] {
      var init := vs[..|vs| - 1];
      var last := vs[|vs| - 1];
      var el := EncodeVerificationType(last);
      assert EncodeVerificationTypes(vs) + rest == EncodeVerificationTypes(init) + (el + rest);
      var s := EncodeVerificationTypes(vs) + rest;
      ParseEncodeVerificationTypes(init, el + rest);
      assert ParseVerificationTypes(s, |vs| - 1) == Some((init, el + rest));
      ParseEncodeVerificationType(last, rest);
      assert init + [last] == vs;
    } else {
      assert EncodeVerificationTypes(vs) + rest == rest;
    }
  }

  /** The frame kinds the reader handles, with the payload each frame type
      selects and counts that match the lengths of the lists. */
  predicate FrameWF(f: StackMapFrame)
  {
    match f.body
    case SameFrame => f.frameType <= 63
    case SameLocals1StackItemFrame(v) => 64 <= f.frameType <= 127 && SupportedType(v)
    case AppendFrame(_, ls) => 252 <= f.frameType <= 254 && |ls| == f.frameType - 251 && AllSupported(ls)
    case ChopFrame(_) => 248 <= f.frameType <= 250
    case FullFrame(_, nl, ls, ns, st) =>
      f.frameType == 255 && |ls| == nl && |st| == ns && AllSupported(ls) && AllSupported(st)
  }

  /** A u16 count followed by that many verification types. */
  function ParseCountedTypes(s: seq<byte>): (r: Option<(u16, seq<VerificationTypeInfo>, seq<byte>)>)
    ensures r.Some? ==> |r.value.1| == r.value.0 as int && AllSupported(r.value.1) && |r.value.2| < |s|
  {
    match ParseU16(s)
    case None => None
    case Some((n, t)) =>
      match ParseVerificationTypes(t, n as nat)
      case None => None
      case Some((vs, u)) => Some((n, vs, u))
  }

  /** The payload of types 252-254: an offset and frame_type - 251 locals. */
  function ParseAppendBody(s: seq<byte>, k: nat): (r: Option<(StackMapFrameBody, seq<byte>)>)
    ensures r.Some? ==> |r.value.1| < |s| && r.value.0.AppendFrame? && |r.value.0.locals| == k
    ensures r.Some? ==> AllSupported(r.value.0.locals)
  {
    match ParseU16(s)
    case None => None
    case Some((off, t)) =>
      match ParseVerificationTypes(t, k)
      case None => None
      case Some((ls, u)) => Some((AppendFrame(off, ls), u))
  }

  /** The payload of type 255: an offset, then counted locals, then a counted stack. */
  function ParseFullBody(s: seq<byte>): (r: Option<(StackMapFrameBody, seq<byte>)>)
    ensures r.Some? ==> |r.value.1| < |s| && r.value.0.FullFrame?
    ensures r.Some? ==> var b := r.value.0;
              |b.locals| == b.numberOfLocals as int && |b.stack| == b.numberOfStackItems as int &&
              AllSupported(b.locals) && AllSupported(b.stack)
  {
    match ParseU16(s)
    case None => None
    case Some((off, t)) =>
      match ParseCountedTypes(t)
      case None => None
      case Some((nl, ls, u)) =>
        match ParseCountedTypes(u)
        case None => None
        case Some((ns, st, w)) => Some((FullFrame(off, nl, ls, ns, st), w))
  }

  /** A frame: its type byte selects the payload; types 128-247 and 251 are failures. */
  function ParseStackMapFrame(s: seq<byte>): (r: Option<(StackMapFrame, seq<byte>)>)
    ensures r.Some? ==> |s| > 0 && |r.value.1| < |s| && FrameWF(r.value.0) && r.value.0.frameType == s[0]
    ensures |s| > 0 && (128 <= s[0] <= 247 || s[0] == 251) ==> r.None?
  {
    match ParseU8(s)
    case None => None
    case Some((ft, t)) =>
      if ft <= 63 then Some((StackMapFrame(ft, SameFrame), t))
      else if ft <= 127 then
        (match ParseVerificationType(t)
         case None => None
         case Some((v, u)) => Some((StackMapFrame(ft, SameLocals1StackItemFrame(v)), u)))
      else if 252 <= ft <= 254 then
        (match ParseAppendBody(t, ft - 251)
         case None => None
         case Some((body, u)) => Some((StackMapFrame(ft, body), u)))
      else if 248 <= ft <= 250 then
        (match ParseU16(t)
         case None => None
         case Some((off, u)) => Some((StackMapFrame(ft, ChopFrame(off)), u)))
      else if ft == 255 then
        (match ParseFullBody(t)
         case None => None
         case Some((body, u)) => Some((StackMapFrame(ft, body), u)))
      else None
  }

  function EncodeCountedTypes(vs: seq<VerificationTypeInfo>): seq<byte>
    requires AllSupported(vs) && |vs| < 0x1_0000
  {
    U16Bytes(|vs|) + EncodeVerificationTypes(vs)
  }

  /** The payload of a frame as it is written after the type byte. */
  function EncodeFrameBody(b: StackMapFrameBody): seq<byte>
    requires b.SameLocals1StackItemFrame? ==> SupportedType(b.stackItem)
    requires b.AppendFrame? ==> AllSupported(b.locals)
    requires b.FullFrame? ==> AllSupported(b.locals) && AllSupported(b.stack) &&
                              |b.locals| == b.numberOfLocals as int && |b.stack| == b.numberOfStackItems as int
  {
    match b
    case SameFrame => []
    case SameLocals1StackItemFrame(v) => EncodeVerificationType(v)
    case AppendFrame(off, ls) => U16Bytes(off) + EncodeVerificationTypes(ls)
    case ChopFrame(off) => U16Bytes(off)
    case FullFrame(off, _, ls, _, st) => U16Bytes(off) + EncodeCountedTypes(ls) + EncodeCountedTypes(st)
  }

  function EncodeStackMapFrame(f: StackMapFrame): seq<byte>
    requires FrameWF(f)
  {
    [f.frameType] + EncodeFrameBody(f.body)
  }

  lemma ParseEncodeCountedTypes(vs: seq<VerificationTypeInfo>, rest: seq<byte>)
    requires AllSupported(vs) && |vs| < 0x1_0000
    ensures ParseCountedTypes(EncodeCountedTypes(vs) + rest) == Some((|vs| as u16, vs, rest))
  {
    var ev := EncodeVerificationTypes(vs);
    assert EncodeCountedTypes(vs) + rest == U16Bytes(|vs|) + (ev + rest);
    ParseU16Bytes(|vs|, ev + rest);
    ParseEncodeVerificationTypes(vs, rest);
  }

  /** An append-frame body is its offset followed by its locals. */
  lemma AppendBodyOf(s: seq<byte>, k: nat, off: u16, t: seq<byte>, ls: seq<VerificationTypeInfo>, rest: seq<byte>)
    requires ParseU16(s) == Some((off, t))
    requires ParseVerificationTypes(t, k) == Some((ls, rest))
    ensures ParseAppendBody(s, k) == Some((AppendFrame(off, ls), rest))
  {
  }

  lemma ConcatAssoc(a: seq<byte>, b: seq<byte>, c: seq<byte>)
    ensures a + b + c == a + (b + c)
  {
  }

  lemma ParseEncodeAppendBody(off: u16, ls: seq<VerificationTypeInfo>, rest: seq<byte>)
    requires AllSupported(ls)
    ensures ParseAppendBody(U16Bytes(off) + EncodeVerificationTypes(ls) + rest, |ls|)
            == Some((AppendFrame(off, ls), rest))
  {
    var e := EncodeVerificationTypes(ls);
    ConcatAssoc(U16Bytes(off), e, rest);
    ParseU16Bytes(off, e + rest);
    ParseEncodeVerificationTypes(ls, rest);
    AppendBodyOf(U16Bytes(off) + (e + rest), |ls|, off, e + rest, ls, rest);
  }

  lemma ParseEncodeFullBody(b: StackMapFrameBody, rest: seq<byte>)
    requires b.FullFrame? && AllSupported(b.locals) && AllSupported(b.stack)
    requires |b.locals| == b.numberOfLocals as int && |b.stack| == b.numberOfStackItems as int
    ensures ParseFullBody(EncodeFrameBody(b) + rest) == Some((b, rest))
  {
    var FullFrame(off, _, ls, _, st) := b;
    var el := EncodeCountedTypes(ls);
    var es := EncodeCountedTypes(st);
    assert EncodeFrameBody(b) + rest == U16Bytes(off) + (el + (es + rest));
    ParseU16Bytes(off, el + (es + rest));
    ParseEncodeCountedTypes(ls, es + rest);
    ParseEncodeCountedTypes(st, rest);
  }

  /** Reading back a written frame gives the frame and stops right after it. */
  lemma ParseEncodeStackMapFrame(f: StackMapFrame, rest: seq<byte>)
    requires FrameWF(f)
    ensures ParseStackMapFrame(EncodeStackMapFrame(f) + rest) == Some((f, rest))
  {
    var t := EncodeFrameBody(f.body) + rest;
    var s := EncodeStackMapFrame(f) + rest;
    assert s == [f.frameType] + t;
    assert s[0] == f.frameType && s[1..] == t;
    match f.body
    case SameFrame =>
    case SameLocals1StackItemFrame(v) => ParseEncodeVerificationType(v, rest);
    case AppendFrame(off, ls) => ParseEncodeAppendBody(off, ls, rest);
    case ChopFrame(off) => ParseU16Bytes(off, rest);
    case FullFrame(_, _, _, _, _) => ParseEncodeFullBody(f.body, rest);
  }
}
