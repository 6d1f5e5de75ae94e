/** `ClassFileReader`: a cursor over the bytes of a class file. Every read
    advances the cursor over what it consumed; each method is proved to
    return exactly what the matching parse function of `ClassFormat` or
    `Format` reads from the bytes left, and to leave the cursor just after
    them. A read that runs out of bytes, and every path on which the reader
    panics, returns `None`; the cursor is then unspecified. */
module Reader {
  import opened Base
  import opened ConstantPool
  import opened Attributes
  import opened Methods
  import opened ClassFiles
  import opened Format
  import opened ClassFormat
  import Utf8Strings

  class ClassFileReader {
    var data: seq<byte>
    var pos: nat

    predicate Valid()
      reads this
    {
      pos <= |data|
    }

    /** The bytes not read yet. */
    function Rest(): seq<byte>
      reads this
      requires Valid()
    {
      data[pos..]
    }

    /** `r` is what `p` read from the bytes that were left, and the cursor
        stands just after them. */
    ghost predicate Consumed<T>(r: Option<T>, p: Option<(T, seq<byte>)>)
      reads this
    {
      r == First(p) && (r.Some? ==> Valid() && Rest() == p.value.1)
    }

    /** A reader at the start of `bytes` (the file's contents). */
    constructor (bytes: seq<byte>)
      ensures data == bytes && pos == 0 && Valid()
    {
      data := bytes;
      pos := 0;
    }

    // Integers.

    method ReadU8() returns (r: Option<byte>)
      requires Valid()
      modifies this
      ensures Valid() && data == old(data)
      ensures Consumed(r, ParseU8(old(Rest())))
    {
      if |data| - pos < 1 {
        return None;
      }
      r := Some(data[pos]);
      pos := pos + 1;
    }

    method ReadU16() returns (r: Option<u16>)
      requires Valid()
      modifies this
      ensures Valid() && data == old(data)
      ensures Consumed(r, ParseU16(old(Rest())))
    {
      if |data| - pos < 2 {
        return None;
      }
      r := Some(BE16(data[pos], data[pos + 1]));
      pos := pos + 2;
    }

    method ReadU32() returns (r: Option<u32>)
      requires Valid()
      modifies this
      ensures Valid() && data == old(data)
      ensures Consumed(r, ParseU32(old(Rest())))
    {
      if |data| - pos < 4 {
        return None;
      }
      r := Some(BE32(data[pos], data[pos + 1], data[pos + 2], data[pos + 3]));
      pos := pos + 4;
    }

    /** n bytes, one `read_u8` at a time. */
    method ReadBytes(n: nat) returns (r: Option<seq<byte>>)
      requires Valid()
      modifies this
      ensures Valid() && data == old(data)
      ensures Consumed(r, ParseBytes(old(Rest()), n))
    {
      ghost var s0 := Rest();
      var bytes := [];
      var k := 0;
      while k < n
        invariant Valid() && data == old(data) && k <= n
        invariant k <= |s0| && bytes == s0[..k] && Rest() == s0[k..]
      {
        var b := ReadU8();
        if b.None? {
          return None;
        }
        bytes := bytes + [b.value];
        k := k + 1;
      }
      r := Some(bytes);
    }

    // Constants.

    /** `read_constant`: the body of an entry of kind ty. */
    method ReadConstant(ty: ConstantType) returns (r: Option<Constant>)
      requires Valid()
      modifies this
      ensures Valid() && data == old(data)
      ensures Consumed(r, ParseConstant(ty, old(Rest())))
    {
      match ty {
        case Methodref | Fieldref | InterfaceMethodref | NameAndType | InvokeDynamic =>
          r := ReadIndexPair(ty);
        case String =>
          var a := ReadU16();
          r := if a.None? then None else Some(StringInfo(a.value));
        case Class =>
          var a := ReadU16();
          r := if a.None? then None else Some(ClassInfo(a.value));
        case MethodType =>
          var a := ReadU16();
          r := if a.None? then None else Some(MethodTypeInfo(a.value));
        case Utf8 =>
          r := ReadConstantUtf8();
        case Integer =>
          var x := ReadU32();
          r := if x.None? then None else Some(IntegerInfo(Wrap32(x.value)));
        case Float =>
          var x := ReadU32();
          r := if x.None? then None else Some(FloatInfo(x.value));
        case Long =>
          var bits := ReadDoubleWord();
          r := if bits.None? then None else Some(LongInfo(Wrap64(bits.value)));
        case Double =>
          var bits := ReadDoubleWord();
          r := if bits.None? then None else Some(DoubleInfo(bits.value));
        case MethodHandle =>
          var kind := ReadU8();
          if kind.None? {
            return None;
          }
          var index := ReadU16();
          if index.None? {
            return None;
          }
          r := Some(MethodHandleInfo(kind.value, index.value));
      }
    }

    /** The high and then the low u32 of a `Long` or `Double` entry, joined. */
    method ReadDoubleWord() returns (r: Option<u64>)
      requires Valid()
      modifies this
      ensures Valid() && data == old(data)
      ensures Consumed(r, ParseU64(old(Rest())))
    {
      var high := ReadU32();
      if high.None? {
        return None;
      }
      var low := ReadU32();
      if low.None? {
        return None;
      }
      r := Some(Join64(high.value, low.value));
    }

    /** The entries made of two u16 indices. */
    method ReadIndexPair(ty: ConstantType) returns (r: Option<Constant>)
      requires Valid()
      requires ty in {ConstantType.Methodref, ConstantType.Fieldref, ConstantType.InterfaceMethodref,
                      ConstantType.NameAndType, ConstantType.InvokeDynamic}
      modifies this
      ensures Valid() && data == old(data)
      ensures Consumed(r, ParseConstant(ty, old(Rest())))
    {
      var a := ReadU16();
      if a.None? {
        return None;
      }
      var b := ReadU16();
      if b.None? {
        return None;
      }
      var x, y := a.value, b.value;
      r := Some(match ty
                case Methodref => MethodrefInfo(x, y)
                case Fieldref => FieldrefInfo(x, y)
                case InterfaceMethodref => InterfaceMethodrefInfo(x, y)
                case NameAndType => NameAndTypeInfo(x, y)
                case _ => InvokeDynamicInfo(x, y));
    }

    /** `read_constant_utf8`: a length, that many bytes, and their UTF-8 decoding. */
    method ReadConstantUtf8() returns (r: Option<Constant>)
      requires Valid()
      modifies this
      ensures Valid() && data == old(data)
      ensures Consumed(r, ParseConstant(Utf8, old(Rest())))
    {
      ghost var s0 := Rest();
      var length := ReadU16();
      if length.None? {
        return None;
      }
      ghost var t := Rest();
      var bytes := ReadBytes(length.value as nat);
      if bytes.None? {
        return None;
      }
      assert bytes.value == t[..length.value] && Rest() == t[length.value..];
      var str := Utf8Strings.Decode(bytes.value);
      if str.None? {
        return None;
      }
      r := Some(Utf8Info(str.value));
    }

    /** The constant-pool loop of `read`: slot 0 is the placeholder, and a
        `Long` or `Double` entry is followed by another placeholder and
        advances the index by two. */
    method ReadConstantPool(count: u16) returns (r: Option<seq<Constant>>)
      requires Valid() && count > 0
      modifies this
      ensures Valid() && data == old(data)
      ensures Consumed(r, ParsePool(old(Rest()), count))
    {
      ghost var s0 := Rest();
      var limit := count as nat - 1;
      var pool := [Empty];
      var idx := 0;
      while idx < limit
        invariant Valid() && data == old(data)
        invariant idx <= limit + 1 && |pool| == idx + 1 && PoolLayout(pool)
        invariant ParsePoolFrom(s0, 0, limit, [Empty]) == ParsePoolFrom(Rest(), idx, limit, pool)
        decreases limit + 1 - idx
      {
        ghost var s := Rest();
        var tag := ReadU8();
        if tag.None? {
          return None;
        }
        var ty := FromTag(tag.value);
        if ty.None? {
          return None;
        }
        var c := ReadConstant(ty.value);
        if c.None? {
          return None;
        }
        assert ParseEntry(s) == Some((c.value, Rest()));
        PoolStep(s, idx, limit, pool, c.value, Rest());
        WideKinds(c.value);
        if ty.value == ConstantType.Double || ty.value == ConstantType.Long {
          pool := pool + [c.value, Empty];
          idx := idx + 2;
        } else {
          pool := pool + [c.value];
          idx := idx + 1;
        }
      }
      r := Some(pool);
    }

    // Counted tables of fixed-size rows.

    method ReadException() returns (r: Option<ExceptionEntry>)
      requires Valid()
      modifies this
      ensures Valid() && data == old(data)
      ensures Consumed(r, ParseException(old(Rest())))
    {
      var startPc := ReadU16();
      if startPc.None? {
        return None;
      }
      var endPc := ReadU16();
      if endPc.None? {
        return None;
      }
      var handlerPc := ReadU16();
      if handlerPc.None? {
        return None;
      }
      var catchType := ReadU16();
      if catchType.None? {
        return None;
      }
      r := Some(ExceptionEntry(startPc.value, endPc.value, handlerPc.value, catchType.value));
    }

    method ReadExceptionTable(n: nat) returns (r: Option<seq<ExceptionEntry>>)
      requires Valid()
      modifies this
      ensures Valid() && data == old(data)
      ensures Consumed(r, ParseCount(ParseException, old(Rest()), n))
    {
      ghost var s0 := Rest();
      var table := [];
      var k := 0;
      while k < n
        invariant Valid() && data == old(data) && k <= n
        invariant ParseCount(ParseException, s0, k) == Some((table, Rest()))
      {
        ghost var t := Rest();
        var e := ReadException();
        if e.None? {
          ParseCountStop(ParseException, s0, k, n, table, t);
          return None;
        }
        ParseCountStep(ParseException, s0, k, table, t, e.value, Rest());
        table := table + [e.value];
        k := k + 1;
      }
      r := Some(table);
    }

    method ReadLineNumber() returns (r: Option<LineNumber>)
      requires Valid()
      modifies this
      ensures Valid() && data == old(data)
      ensures Consumed(r, ParseLineNumber(old(Rest())))
    {
      var startPc := ReadU16();
      if startPc.None? {
        return None;
      }
      var line := ReadU16();
      if line.None? {
        return None;
      }
      r := Some(LineNumber(startPc.value, line.value));
    }

    method ReadLineNumberTableAttribute() returns (r: Option<Attribute>)
      requires Valid()
      modifies this
      ensures Valid() && data == old(data)
      ensures Consumed(r, ParseLineNumberTable(old(Rest())))
    {
      var n := ReadU16();
      if n.None? {
        return None;
      }
      ghost var s0 := Rest();
      var table := [];
      var k := 0;
      while k < n.value as nat
        invariant Valid() && data == old(data) && k <= n.value as nat
        invariant ParseCount(ParseLineNumber, s0, k) == Some((table, Rest()))
      {
        ghost var t := Rest();
        var e := ReadLineNumber();
        if e.None? {
          ParseCountStop(ParseLineNumber, s0, k, n.value as nat, table, t);
          return None;
        }
        ParseCountStep(ParseLineNumber, s0, k, table, t, e.value, Rest());
        table := table + [e.value];
        k := k + 1;
      }
      r := Some(LineNumberTable(n.value, table));
    }

    method ReadSourceFileAttribute() returns (r: Option<Attribute>)
      requires Valid()
      modifies this
      ensures Valid() && data == old(data)
      ensures Consumed(r, ParseSourceFile(old(Rest())))
    {
      var index := ReadU16();
      if index.None? {
        return None;
      }
      r := Some(SourceFile(index.value));
    }

    method ReadSignatureAttribute() returns (r: Option<Attribute>)
      requires Valid()
      modifies this
      ensures Valid() && data == old(data)
      ensures Consumed(r, ParseSignature(old(Rest())))
    {
      var index := ReadU16();
      if index.None? {
        return None;
      }
      r := Some(Signature(index.value));
    }

    method ReadExceptionsAttribute() returns (r: Option<Attribute>)
      requires Valid()
      modifies this
      ensures Valid() && data == old(data)
      ensures Consumed(r, ParseExceptions(old(Rest())))
    {
      var n := ReadU16();
      if n.None? {
        return None;
      }
      ghost var s0 := Rest();
      var table := [];
      var k := 0;
      while k < n.value as nat
        invariant Valid() && data == old(data) && k <= n.value as nat
        invariant ParseCount(ParseU16, s0, k) == Some((table, Rest()))
      {
        ghost var t := Rest();
        var e := ReadU16();
        if e.None? {
          ParseCountStop(ParseU16, s0, k, n.value as nat, table, t);
          return None;
        }
        ParseCountStep(ParseU16, s0, k, table, t, e.value, Rest());
        table := table + [e.value];
        k := k + 1;
      }
      r := Some(Exceptions(n.value, table));
    }

    method ReadClasses() returns (r: Option<InnerClassesBody>)
      requires Valid()
      modifies this
      ensures Valid() && data == old(data)
      ensures Consumed(r, ParseInnerClass(old(Rest())))
    {
      var inner := ReadU16();
      if inner.None? {
        return None;
      }
      var outer := ReadU16();
      if outer.None? {
        return None;
      }
      var name := ReadU16();
      if name.None? {
        return None;
      }
      var flags := ReadU16();
      if flags.None? {
        return None;
      }
      r := Some(InnerClassesBody(inner.value, outer.value, name.value, flags.value));
    }

    method ReadInnerClassesAttribute() returns (r: Option<Attribute>)
      requires Valid()
      modifies this
      ensures Valid() && data == old(data)
      ensures Consumed(r, ParseInnerClasses(old(Rest())))
    {
      var n := ReadU16();
      if n.None? {
        return None;
      }
      ghost var s0 := Rest();
      var classes := [];
      var k := 0;
      while k < n.value as nat
        invariant Valid() && data == old(data) && k <= n.value as nat
        invariant ParseCount(ParseInnerClass, s0, k) == Some((classes, Rest()))
      {
        ghost var t := Rest();
        var e := ReadClasses();
        if e.None? {
          ParseCountStop(ParseInnerClass, s0, k, n.value as nat, classes, t);
          return None;
        }
        ParseCountStep(ParseInnerClass, s0, k, classes, t, e.value, Rest());
        classes := classes + [e.value];
        k := k + 1;
      }
      r := Some(InnerClasses(n.value, classes));
    }

    // Annotations.

    /** `read_element_value_pair`: the name index, then the element value,
        whose reading is left unimplemented and so always fails. */
    method ReadElementValuePair() returns (r: Option<ElementValuePair>)
      requires Valid()
      modifies this
      ensures Valid() && data == old(data)
      ensures Consumed(r, ParseElementValuePair(old(Rest())))
    {
      var nameIndex := ReadU16();
      r := None;
    }

    /** `read_annotation`. The loop over the pairs fails on its first turn,
        so only an empty pair table is read. */
    method ReadAnnotation() returns (r: Option<Annotation>)
      requires Valid()
      modifies this
      ensures Valid() && data == old(data)
      ensures Consumed(r, ParseAnnotation(old(Rest())))
    {
      var typeIndex := ReadU16();
      if typeIndex.None? {
        return None;
      }
      var num := ReadU16();
      if num.None? {
        return None;
      }
      ghost var s0 := Rest();
      NoPairsReadable(s0, num.value as nat);
      if num.value > 0 {
        var pair := ReadElementValuePair();
        return None;
      }
      r := Some(Annotation(typeIndex.value, num.value, []));
    }

    method ReadRuntimeVisibleAnnotationsAttribute() returns (r: Option<Attribute>)
      requires Valid()
      modifies this
      ensures Valid() && data == old(data)
      ensures Consumed(r, ParseRuntimeVisibleAnnotations(old(Rest())))
    {
      var n := ReadU16();
      if n.None? {
        return None;
      }
      ghost var s0 := Rest();
      var annotations := [];
      var k := 0;
      while k < n.value as nat
        invariant Valid() && data == old(data) && k <= n.value as nat
        invariant ParseCount(ParseAnnotation, s0, k) == Some((annotations, Rest()))
      {
        ghost var t := Rest();
        var e := ReadAnnotation();
        if e.None? {
          ParseCountStop(ParseAnnotation, s0, k, n.value as nat, annotations, t);
          return None;
        }
        ParseCountStep(ParseAnnotation, s0, k, annotations, t, e.value, Rest());
        annotations := annotations + [e.value];
        k := k + 1;
      }
      r := Some(RuntimeVisibleAnnotations(n.value, annotations));
    }

    // Stack-map frames.

    method ReadVerificationTypeInfo() returns (r: Option<VerificationTypeInfo>)
      requires Valid()
      modifies this
      ensures Valid() && data == old(data)
      ensures Consumed(r, ParseVerificationType(old(Rest())))
    {
      var tag := ReadU8();
      if tag.None? {
        return None;
      }
      var t := tag.value;
      if t == 1 {
        r := Some(VerificationTypeInfo.Integer);
      } else if t == 2 {
        r := Some(VerificationTypeInfo.Float);
      } else if t == 3 {
        r := Some(VerificationTypeInfo.Double);
      } else if t == 4 {
        r := Some(VerificationTypeInfo.Long);
      } else if t == 7 {
        var index := ReadU16();
        if index.None? {
          return None;
        }
        r := Some(Object(index.value));
      } else {
        r := None;
      }
    }

    /** The counted loops of `read_stack_map_frame` that push verification types. */
    method ReadVerificationTypes(n: nat) returns (r: Option<seq<VerificationTypeInfo>>)
      requires Valid()
      modifies this
      ensures Valid() && data == old(data)
      ensures Consumed(r, ParseVerificationTypes(old(Rest()), n))
    {
      ghost var s0 := Rest();
      var types := [];
      var k := 0;
      while k < n
        invariant Valid() && data == old(data) && k <= n
        invariant ParseVerificationTypes(s0, k) == Some((types, Rest()))
      {
        ghost var t := Rest();
        var v := ReadVerificationTypeInfo();
        if v.None? {
          ParseVerificationTypesStop(s0, k, n, types, t);
          return None;
        }
        ParseVerificationTypesStep(s0, k, types, t, v.value, Rest());
        types := types + [v.value];
        k := k + 1;
      }
      r := Some(types);
    }

    /** `read_stack_map_frame`: the frame type selects the payload. */
    method ReadStackMapFrame() returns (r: Option<StackMapFrame>)
      requires Valid()
      modifies this
      ensures Valid() && data == old(data)
      ensures Consumed(r, ParseStackMapFrame(old(Rest())))
    {
      var frameType := ReadU8();
      if frameType.None? {
        return None;
      }
      var ft := frameType.value;
      if ft <= 63 {
        r := Some(StackMapFrame(ft, SameFrame));
      } else if ft <= 127 {
        var stack := ReadVerificationTypeInfo();
        if stack.None? {
          return None;
        }
        r := Some(StackMapFrame(ft, SameLocals1StackItemFrame(stack.value)));
      } else if 252 <= ft <= 254 {
        var offsetDelta := ReadU16();
        if offsetDelta.None? {
          return None;
        }
        var locals := ReadVerificationTypes(ft - 251);
        if locals.None? {
          return None;
        }
        r := Some(StackMapFrame(ft, AppendFrame(offsetDelta.value, locals.value)));
      } else if 248 <= ft <= 250 {
        var offsetDelta := ReadU16();
        if offsetDelta.None? {
          return None;
        }
        r := Some(StackMapFrame(ft, ChopFrame(offsetDelta.value)));
      } else if ft == 255 {
        r := ReadFullFrame();
      } else {
        r := None;
      }
    }

    /** The payload of frame type 255. */
    method ReadFullFrame() returns (r: Option<StackMapFrame>)
      requires Valid()
      modifies this
      ensures Valid() && data == old(data)
      ensures r == (match ParseFullBody(old(Rest()))
                    case None => None
                    case Some((body, _)) => Some(StackMapFrame(255, body)))
      ensures r.Some? ==> Rest() == ParseFullBody(old(Rest())).value.1
    {
      ghost var s0 := Rest();
      var offsetDelta := ReadU16();
      if offsetDelta.None? {
        return None;
      }
      ghost var s1 := Rest();
      var numberOfLocals := ReadU16();
      if numberOfLocals.None? {
        return None;
      }
      var locals := ReadVerificationTypes(numberOfLocals.value as nat);
      if locals.None? {
        return None;
      }
      assert ParseCountedTypes(s1) == Some((numberOfLocals.value, locals.value, Rest()));
      ghost var s2 := Rest();
      var numberOfStackItems := ReadU16();
      if numberOfStackItems.None? {
        return None;
      }
      var stack := ReadVerificationTypes(numberOfStackItems.value as nat);
      if stack.None? {
        return None;
      }
      assert ParseCountedTypes(s2) == Some((numberOfStackItems.value, stack.value, Rest()));
      r := Some(StackMapFrame(255, FullFrame(offsetDelta.value, numberOfLocals.value, locals.value,
                                             numberOfStackItems.value, stack.value)));
    }

    method ReadStackMapTableAttribute() returns (r: Option<Attribute>)
      requires Valid()
      modifies this
      ensures Valid() && data == old(data)
      ensures Consumed(r, ParseStackMapTable(old(Rest())))
    {
      var n := ReadU16();
      if n.None? {
        return None;
      }
      ghost var s0 := Rest();
      var entries := [];
      var k := 0;
      while k < n.value as nat
        invariant Valid() && data == old(data) && k <= n.value as nat
        invariant ParseStackMapFrames(s0, k) == Some((entries, Rest()))
      {
        ghost var t := Rest();
        var f := ReadStackMapFrame();
        if f.None? {
          ParseStackMapFramesStop(s0, k, n.value as nat, entries, t);
          return None;
        }
        ParseStackMapFramesStep(s0, k, entries, t, f.value, Rest());
        entries := entries + [f.value];
        k := k + 1;
      }
      r := Some(StackMapTable(n.value, entries));
    }

    // Attributes, fields and methods.

    /** `read_attribute_info`: the name, looked up in the pool, selects the body. */
    method ReadAttributeInfo(pool: seq<Constant>) returns (r: Option<AttributeInfo>)
      requires Valid()
      modifies this
      ensures Valid() && data == old(data)
      ensures Consumed(r, ParseAttributeInfo(pool, old(Rest())))
      decreases |data| - pos, 2
    {
      var nameIndex := ReadU16();
      if nameIndex.None? {
        return None;
      }
      var length := ReadU32();
      if length.None? {
        return None;
      }
      if nameIndex.value as int >= |pool| {
        return None;
      }
      var name := pool[nameIndex.value].GetUtf8();
      if name.None? {
        return None;
      }
      var info := ReadAttributeBody(pool, name.value);
      if info.None? {
        return None;
      }
      r := Some(AttributeInfo(nameIndex.value, length.value, info.value));
    }

    /** The dispatch on the attribute name inside `read_attribute_info`; an
        unknown name is unimplemented and fails. */
    method ReadAttributeBody(pool: seq<Constant>, name: string) returns (r: Option<Attribute>)
      requires Valid()
      modifies this
      ensures Valid() && data == old(data)
      ensures Consumed(r, ParseAttributeBody(pool, name, old(Rest())))
      decreases |data| - pos, 1
    {
      if name == "Code" {
        r := ReadCodeAttribute(pool);
      } else if name == "LineNumberTable" {
        r := ReadLineNumberTableAttribute();
      } else if name == "SourceFile" {
        r := ReadSourceFileAttribute();
      } else if name == "StackMapTable" {
        r := ReadStackMapTableAttribute();
      } else if name == "Signature" {
        r := ReadSignatureAttribute();
      } else if name == "Exceptions" {
        r := ReadExceptionsAttribute();
      } else if name == "Deprecated" {
        r := Some(Deprecated);
      } else if name == "RuntimeVisibleAnnotations" {
        r := ReadRuntimeVisibleAnnotationsAttribute();
      } else if name == "InnerClasses" {
        r := ReadInnerClassesAttribute();
      } else {
        r := None;
      }
    }

    /** `read_code_attribute`. */
    method ReadCodeAttribute(pool: seq<Constant>) returns (r: Option<Attribute>)
      requires Valid()
      modifies this
      ensures Valid() && data == old(data)
      ensures Consumed(r, ParseCode(pool, old(Rest())))
      decreases |data| - pos, 0
    {
      var maxStack := ReadU16();
      if maxStack.None? {
        return None;
      }
      var maxLocals := ReadU16();
      if maxLocals.None? {
        return None;
      }
      var codeLength := ReadU32();
      if codeLength.None? {
        return None;
      }
      var code := ReadBytes(codeLength.value as nat);
      if code.None? {
        return None;
      }
      r := ReadCodeTables(pool, maxStack.value, maxLocals.value, codeLength.value, code.value);
    }

    method ReadCodeTables(pool: seq<Constant>, maxStack: u16, maxLocals: u16, codeLength: u32, code: seq<byte>)
      returns (r: Option<Attribute>)
      requires Valid() && |code| == codeLength as int
      modifies this
      ensures Valid() && data == old(data)
      ensures Consumed(r, ParseCodeTables(pool, maxStack, maxLocals, codeLength, code, old(Rest())))
      decreases |data| - pos, 0
    {
      var exceptionTableLength := ReadU16();
      if exceptionTableLength.None? {
        return None;
      }
      var exceptionTable := ReadExceptionTable(exceptionTableLength.value as nat);
      if exceptionTable.None? {
        return None;
      }
      var attributesCount := ReadU16();
      if attributesCount.None? {
        return None;
      }
      var attributes := ReadAttributes(pool, attributesCount.value as nat);
      if attributes.None? {
        return None;
      }
      r := Some(Code(maxStack, maxLocals, codeLength, code, exceptionTableLength.value, exceptionTable.value,
                     attributesCount.value, attributes.value));
    }

    /** The counted attribute loops of fields, methods, `Code` and the class. */
    method ReadAttributes(pool: seq<Constant>, n: nat) returns (r: Option<seq<AttributeInfo>>)
      requires Valid()
      modifies this
      ensures Valid() && data == old(data)
      ensures Consumed(r, ParseAttributes(pool, old(Rest()), n))
      decreases |data| - pos, 3
    {
      ghost var s0 := Rest();
      var attributes := [];
      var k := 0;
      while k < n
        invariant Valid() && data == old(data) && k <= n && old(pos) <= pos
        invariant ParseAttributes(pool, s0, k) == Some((attributes, Rest()))
        decreases n - k
      {
        ghost var t := Rest();
        var a := ReadAttributeInfo(pool);
        if a.None? {
          ParseAttributesStop(pool, s0, k, n, attributes, t);
          return None;
        }
        ParseAttributesStep(pool, s0, k, attributes, t, a.value, Rest());
        attributes := attributes + [a.value];
        k := k + 1;
      }
      r := Some(attributes);
    }

    method ReadFieldInfo(pool: seq<Constant>) returns (r: Option<FieldInfo>)
      requires Valid()
      modifies this
      ensures Valid() && data == old(data)
      ensures Consumed(r, ParseFieldInfo(pool, old(Rest())))
    {
      var accessFlags := ReadU16();
      if accessFlags.None? {
        return None;
      }
      var nameIndex := ReadU16();
      if nameIndex.None? {
        return None;
      }
      var descriptorIndex := ReadU16();
      if descriptorIndex.None? {
        return None;
      }
      var attributesCount := ReadU16();
      if attributesCount.None? {
        return None;
      }
      var attributes := ReadAttributes(pool, attributesCount.value as nat);
      if attributes.None? {
        return None;
      }
      r := Some(FieldInfo(accessFlags.value, nameIndex.value, descriptorIndex.value,
                          attributesCount.value, attributes.value));
    }

    method ReadMethodInfo(pool: seq<Constant>) returns (r: Option<MethodInfo>)
      requires Valid()
      modifies this
      ensures Valid() && data == old(data)
      ensures Consumed(r, ParseMethodInfo(pool, old(Rest())))
    {
      var accessFlags := ReadU16();
      if accessFlags.None? {
        return None;
      }
      var nameIndex := ReadU16();
      if nameIndex.None? {
        return None;
      }
      var descriptorIndex := ReadU16();
      if descriptorIndex.None? {
        return None;
      }
      var attributesCount := ReadU16();
      if attributesCount.None? {
        return None;
      }
      var attributes := ReadAttributes(pool, attributesCount.value as nat);
      if attributes.None? {
        return None;
      }
      r := Some(MethodInfo(accessFlags.value, nameIndex.value, descriptorIndex.value,
                           attributesCount.value, attributes.value));
    }

    // The class file.

    method ReadInterfaces(n: nat) returns (r: Option<seq<Constant>>)
      requires Valid()
      modifies this
      ensures Valid() && data == old(data)
      ensures Consumed(r, ParseCount(ParseInterface, old(Rest()), n))
      ensures r.Some? ==> forall i :: 0 <= i < |r.value| ==> r.value[i].ClassInfo?
    {
      ghost var s0 := Rest();
      var interfaces: seq<Constant> := [];
      var k := 0;
      while k < n
        invariant Valid() && data == old(data) && k <= n
        invariant ParseCount(ParseInterface, s0, k) == Some((interfaces, Rest()))
        invariant forall i :: 0 <= i < |interfaces| ==> interfaces[i].ClassInfo?
      {
        ghost var t := Rest();
        var c := ReadConstant(ConstantType.Class);
        if c.None? {
          ParseCountStop(ParseInterface, s0, k, n, interfaces, t);
          return None;
        }
        ParseCountStep(ParseInterface, s0, k, interfaces, t, c.value, Rest());
        interfaces := interfaces + [c.value];
        k := k + 1;
      }
      r := Some(interfaces);
    }

    method ReadFields(pool: seq<Constant>, n: nat) returns (r: Option<seq<FieldInfo>>)
      requires Valid()
      modifies this
      ensures Valid() && data == old(data)
      ensures Consumed(r, ParseCount(FieldItem(pool), old(Rest()), n))
    {
      ghost var s0 := Rest();
      var fields := [];
      var k := 0;
      while k < n
        invariant Valid() && data == old(data) && k <= n
        invariant ParseCount(FieldItem(pool), s0, k) == Some((fields, Rest()))
      {
        ghost var t := Rest();
        var f := ReadFieldInfo(pool);
        if f.None? {
          ParseCountStop(FieldItem(pool), s0, k, n, fields, t);
          return None;
        }
        ParseCountStep(FieldItem(pool), s0, k, fields, t, f.value, Rest());
        fields := fields + [f.value];
        k := k + 1;
      }
      r := Some(fields);
    }

    method ReadMethods(pool: seq<Constant>, n: nat) returns (r: Option<seq<MethodInfo>>)
      requires Valid()
      modifies this
      ensures Valid() && data == old(data)
      ensures Consumed(r, ParseCount(MethodItem(pool), old(Rest()), n))
    {
      ghost var s0 := Rest();
      var methods := [];
      var k := 0;
      while k < n
        invariant Valid() && data == old(data) && k <= n
        invariant ParseCount(MethodItem(pool), s0, k) == Some((methods, Rest()))
      {
        ghost var t := Rest();
        var m := ReadMethodInfo(pool);
        if m.None? {
          ParseCountStop(MethodItem(pool), s0, k, n, methods, t);
          return None;
        }
        ParseCountStep(MethodItem(pool), s0, k, methods, t, m.value, Rest());
        methods := methods + [m.value];
        k := k + 1;
      }
      r := Some(methods);
    }

    /** `read`: the whole class file from the cursor on. The result is what
        `ParseClassFile` makes of the bytes, so it is `None` unless they start
        with 0xCAFEBABE, and a returned class file is well formed. */
    method Read() returns (r: Option<ClassFile>)
      requires Valid()
      modifies this
      ensures Valid() && data == old(data)
      ensures r == ParseClassFile(old(Rest()))
    {
      var magic := ReadU32();
      if magic.None? || magic.value != MAGIC {
        return None;
      }
      var minorVersion := ReadU16();
      if minorVersion.None? {
        return None;
      }
      var majorVersion := ReadU16();
      if majorVersion.None? {
        return None;
      }
      r := ReadPoolAndBody(minorVersion.value, majorVersion.value);
    }

    method ReadPoolAndBody(minor: u16, major: u16) returns (r: Option<ClassFile>)
      requires Valid()
      modifies this
      ensures Valid() && data == old(data)
      ensures r == ParsePoolAndBody(minor, major, old(Rest()))
    {
      var constantPoolCount := ReadU16();
      if constantPoolCount.None? || constantPoolCount.value == 0 {
        return None;
      }
      var constantPool := ReadConstantPool(constantPoolCount.value);
      if constantPool.None? {
        return None;
      }
      r := ReadClassBody(minor, major, constantPoolCount.value, constantPool.value);
    }

    /** The part of `read` after the constant pool. */
    method ReadClassBody(minor: u16, major: u16, count: u16, pool: seq<Constant>) returns (r: Option<ClassFile>)
      requires Valid()
      modifies this
      ensures Valid() && data == old(data)
      ensures r == ParseClassBody(minor, major, count, pool, old(Rest()))
    {
      var accessFlags := ReadU16();
      if accessFlags.None? {
        return None;
      }
      var thisClass := ReadU16();
      if thisClass.None? {
        return None;
      }
      var superClass := ReadU16();
      if superClass.None? {
        return None;
      }
      var interfacesCount := ReadU16();
      if interfacesCount.None? {
        return None;
      }
      var interfaces := ReadInterfaces(interfacesCount.value as nat);
      if interfaces.None? {
        return None;
      }
      r := ReadMembers(ClassFile(MAGIC, minor, major, count, pool, accessFlags.value, thisClass.value,
                                 superClass.value, interfacesCount.value, interfaces.value, 0, [], 0, [], 0, []));
    }

    /** The fields, methods and attributes of the class. */
    method ReadMembers(cf: ClassFile) returns (r: Option<ClassFile>)
      requires Valid()
      requires |cf.interfaces| == cf.interfacesCount as int
      requires forall i :: 0 <= i < |cf.interfaces| ==> cf.interfaces[i].ClassInfo?
      modifies this
      ensures Valid() && data == old(data)
      ensures r == ParseMembers(cf, old(Rest()))
    {
      var pool := cf.constantPool;
      var fieldsCount := ReadU16();
      if fieldsCount.None? {
        return None;
      }
      var fields := ReadFields(pool, fieldsCount.value as nat);
      if fields.None? {
        return None;
      }
      var methodsCount := ReadU16();
      if methodsCount.None? {
        return None;
      }
      var methods := ReadMethods(pool, methodsCount.value as nat);
      if methods.None? {
        return None;
      }
      var attributesCount := ReadU16();
      if attributesCount.None? {
        return None;
      }
      var attributes := ReadAttributes(pool, attributesCount.value as nat);
      if attributes.None? {
        return None;
      }
      r := Some(cf.(fieldsCount := fieldsCount.value, fields := fields.value, methodsCount := methodsCount.value,
                    methods := methods.value, attributesCount := attributesCount.value,
                    attributes := attributes.value));
    }
  }
}
