/** What the class-file reader makes of a byte sequence, written as parse
    functions from the bytes left to the value read and the bytes after it:
    the counted tables, the attributes (section 4.7 of The Java Virtual
    Machine Specification, Java SE 8 Edition), the constant pool with its
    two-slot rule (section 4.4.5) and the whole `ClassFile` (section 4.1).
    Every place where the reader panics or stops on a short read is `None`. */
module ClassFormat {
  import opened Base
  import opened ConstantPool
  import opened Attributes
  import opened Methods
  import opened ClassFiles
  import opened Format

  /** The value a parse produced, without the bytes after it. */
  function First<T>(r: Option<(T, seq<byte>)>): (v: Option<T>)
    ensures v.Some? <==> r.Some?
    ensures v.Some? ==> v.value == r.value.0
  {
    if r.Some? then Some(r.value.0) else None
  }

  // Counted tables.

  /** A parse function that always consumes at least one byte. */
  ghost predicate Shrinks<T>(item: seq<byte> -> Option<(T, seq<byte>)>)
  {
    forall s :: item(s).Some? ==> |item(s).value.1| < |s|
  }

  /** n items read one after another, as the reader's counted loops push them. */
  function ParseCount<T>(item: seq<byte> -> Option<(T, seq<byte>)>, s: seq<byte>, n: nat)
    : (r: Option<(seq<T>, seq<byte>)>)
    ensures r.Some? ==> |r.value.0| == n
    ensures r.Some? && Shrinks(item) ==> |r.value.1| <= |s|
    decreases n
  {
    if n == 0 then Some(([], s))
    else
      match ParseCount(item, s, n - 1)
      case None => None
      case Some((xs, t)) =>
        match item(t)
        case None => None
        case Some((x, u)) => Some((xs + [x], u))
  }

  /** Once a counted table fails, a longer one fails too. */
  lemma {:induction false} ParseCountFails<T>(item: seq<byte> -> Option<(T, seq<byte>)>, s: seq<byte>, k: nat, n: nat)
    requires k <= n && ParseCount(item, s, k).None?
    ensures ParseCount(item, s, n).None?
    decreases n
  {
    if n > k {
      ParseCountFails(item, s, k, n - 1);
    }
  }

  /** One more row read after a table of k rows gives the table of k + 1 rows. */
  lemma ParseCountStep<T>(item: seq<byte> -> Option<(T, seq<byte>)>, s: seq<byte>, k: nat,
                          xs: seq<T>, t: seq<byte>, x: T, u: seq<byte>)
    requires ParseCount(item, s, k) == Some((xs, t)) && item(t) == Some((x, u))
    ensures ParseCount(item, s, k + 1) == Some((xs + [x], u))
  {
  }

  /** A row that cannot be read after k rows makes every longer table fail. */
  lemma ParseCountStop<T>(item: seq<byte> -> Option<(T, seq<byte>)>, s: seq<byte>, k: nat, n: nat,
                          xs: seq<T>, t: seq<byte>)
    requires k < n && ParseCount(item, s, k) == Some((xs, t)) && item(t).None?
    ensures ParseCount(item, s, n).None?
  {
    ParseCountFails(item, s, k + 1, n);
  }

  /** A property every item has, every item of a counted table has. */
  lemma {:induction false} ParseCountAll<T>(item: seq<byte> -> Option<(T, seq<byte>)>, P: T -> bool, s: seq<byte>, n: nat)
    requires forall t :: item(t).Some? ==> P(item(t).value.0)
    ensures ParseCount(item, s, n).Some? ==>
              forall i :: 0 <= i < n ==> P(ParseCount(item, s, n).value.0[i])
    decreases n
  {
    if n > 0 {
      ParseCountAll(item, P, s, n - 1);
    }
  }

  /** n raw bytes, as the `code` array is read. */
  function ParseBytes(s: seq<byte>, n: nat): (r: Option<(seq<byte>, seq<byte>)>)
    ensures r.Some? <==> |s| >= n
    ensures r.Some? ==> |r.value.0| == n && r.value.0 + r.value.1 == s
  {
    if |s| < n then None else Some((s[..n], s[n..]))
  }

  /** A row of the exception table: four u16 fields. */
  function ParseException(s: seq<byte>): (r: Option<(ExceptionEntry, seq<byte>)>)
    ensures r.Some? <==> |s| >= 8
    ensures r.Some? ==> r.value.1 == s[8..]
  {
    match ParseU16(s)
    case None => None
    case Some((startPc, t1)) =>
      match ParseU16(t1)
      case None => None
      case Some((endPc, t2)) =>
        match ParseU16(t2)
        case None => None
        case Some((handlerPc, t3)) =>
          match ParseU16(t3)
          case None => None
          case Some((catchType, t4)) => Some((ExceptionEntry(startPc, endPc, handlerPc, catchType), t4))
  }

  /** A row of a `LineNumberTable`: two u16 fields. */
  function ParseLineNumber(s: seq<byte>): (r: Option<(LineNumber, seq<byte>)>)
    ensures r.Some? <==> |s| >= 4
    ensures r.Some? ==> r.value.1 == s[4..]
  {
    match ParseU16(s)
    case None => None
    case Some((startPc, t1)) =>
      match ParseU16(t1)
      case None => None
      case Some((line, t2)) => Some((LineNumber(startPc, line), t2))
  }

  /** A row of an `InnerClasses` table: four u16 fields. */
  function ParseInnerClass(s: seq<byte>): (r: Option<(InnerClassesBody, seq<byte>)>)
    ensures r.Some? <==> |s| >= 8
    ensures r.Some? ==> r.value.1 == s[8..]
  {
    match ParseU16(s)
    case None => None
    case Some((inner, t1)) =>
      match ParseU16(t1)
      case None => None
      case Some((outer, t2)) =>
        match ParseU16(t2)
        case None => None
        case Some((name, t3)) =>
          match ParseU16(t3)
          case None => None
          case Some((flags, t4)) => Some((InnerClassesBody(inner, outer, name, flags), t4))
  }

  /** An element-value pair: the reader takes the name index and then stops,
      because reading an element value is left unimplemented. */
  function ParseElementValuePair(s: seq<byte>): (r: Option<(ElementValuePair, seq<byte>)>)
    ensures r.None?
  {
    match ParseU16(s)
    case None => None
    case Some((_, _)) => None
  }

  /** A table of element-value pairs can only be read when it is empty. */
  lemma NoPairsReadable(s: seq<byte>, n: nat)
    ensures n > 0 ==> ParseCount(ParseElementValuePair, s, n).None?
  {
  }

  /** An annotation: type index, pair count and that many pairs; only
      annotations without element-value pairs can be read. */
  function ParseAnnotation(s: seq<byte>): (r: Option<(Annotation, seq<byte>)>)
    ensures r.Some? ==> |r.value.1| < |s|
    ensures r.Some? ==> r.value.0.numElementValuePairs == 0 && r.value.0.elementValuePairs == []
  {
    match ParseU16(s)
    case None => None
    case Some((typeIndex, t)) =>
      match ParseU16(t)
      case None => None
      case Some((num, u)) =>
        match ParseCount(ParseElementValuePair, u, num as nat)
        case None => None
        case Some((pairs, w)) =>
          NoPairsReadable(u, num as nat);
          Some((Annotation(typeIndex, num, pairs), w))
  }

  /** The stack-map frames of a `StackMapTable`. */
  function ParseStackMapFrames(s: seq<byte>, n: nat): (r: Option<(seq<StackMapFrame>, seq<byte>)>)
    ensures r.Some? ==> |r.value.0| == n && |r.value.1| <= |s|
    ensures r.Some? ==> forall i :: 0 <= i < n ==> FrameWF(r.value.0[i])
  {
    if n == 0 then Some(([], s))
    else
      match ParseStackMapFrames(s, n - 1)
      case None => None
      case Some((fs, t)) =>
        match ParseStackMapFrame(t)
        case None => None
        case Some((f, u)) => Some((fs + [f], u))
  }

  lemma {:induction false} ParseStackMapFramesFails(s: seq<byte>, k: nat, n: nat)
    requires k <= n && ParseStackMapFrames(s, k).None?
    ensures ParseStackMapFrames(s, n).None?
    decreases n
  {
    if n > k {
      ParseStackMapFramesFails(s, k, n - 1);
    }
  }

  lemma {:induction false} ParseVerificationTypesFails(s: seq<byte>, k: nat, n: nat)
    requires k <= n && ParseVerificationTypes(s, k).None?
    ensures ParseVerificationTypes(s, n).None?
    decreases n
  {
    if n > k {
      ParseVerificationTypesFails(s, k, n - 1);
    }
  }

  lemma ParseStackMapFramesStep(s: seq<byte>, k: nat, fs: seq<StackMapFrame>, t: seq<byte>,
                                f: StackMapFrame, u: seq<byte>)
    requires ParseStackMapFrames(s, k) == Some((fs, t)) && ParseStackMapFrame(t) == Some((f, u))
    ensures ParseStackMapFrames(s, k + 1) == Some((fs + [f], u))
  {
  }

  lemma ParseStackMapFramesStop(s: seq<byte>, k: nat, n: nat, fs: seq<StackMapFrame>, t: seq<byte>)
    requires k < n && ParseStackMapFrames(s, k) == Some((fs, t)) && ParseStackMapFrame(t).None?
    ensures ParseStackMapFrames(s, n).None?
  {
    ParseStackMapFramesFails(s, k + 1, n);
  }

  lemma ParseVerificationTypesStep(s: seq<byte>, k: nat, vs: seq<VerificationTypeInfo>, t: seq<byte>,
                                   v: VerificationTypeInfo, u: seq<byte>)
    requires ParseVerificationTypes(s, k) == Some((vs, t)) && ParseVerificationType(t) == Some((v, u))
    ensures ParseVerificationTypes(s, k + 1) == Some((vs + [v], u))
  {
  }

  lemma ParseVerificationTypesStop(s: seq<byte>, k: nat, n: nat, vs: seq<VerificationTypeInfo>, t: seq<byte>)
    requires k < n && ParseVerificationTypes(s, k) == Some((vs, t)) && ParseVerificationType(t).None?
    ensures ParseVerificationTypes(s, n).None?
  {
    ParseVerificationTypesFails(s, k + 1, n);
  }

  // Attributes.

  /** An attribute whose name index names, in the pool, the name of its kind,
      and whose tables are as long as their counts say. */
  predicate InfoWF(pool: seq<Constant>, ai: AttributeInfo)
    decreases ai, 1
  {
    ai.attributeNameIndex as int < |pool| &&
    pool[ai.attributeNameIndex] == Utf8Info(NameOf(ai.info)) &&
    AttributeWF(pool, ai.info)
  }

  predicate AttributeWF(pool: seq<Constant>, a: Attribute)
    decreases a, 0
  {
    match a
    case Code(_, _, codeLength, code, exceptionTableLength, exceptionTable, attributesCount, attributes) =>
      |code| == codeLength as int && |exceptionTable| == exceptionTableLength as int &&
      |attributes| == attributesCount as int &&
      forall i :: 0 <= i < |attributes| ==> InfoWF(pool, attributes[i])
    case LineNumberTable(n, table) => |table| == n as int
    case SourceFile(_) => true
    case StackMapTable(n, entries) =>
      |entries| == n as int && forall i :: 0 <= i < |entries| ==> FrameWF(entries[i])
    case Signature(_) => true
    case Exceptions(n, table) => |table| == n as int
    case Deprecated => true
    case RuntimeVisibleAnnotations(n, annotations) =>
      |annotations| == n as int &&
      forall i :: 0 <= i < |annotations| ==> annotations[i].elementValuePairs == []
    case InnerClasses(n, classes) => |classes| == n as int
  }

  predicate AllInfoWF(pool: seq<Constant>, attrs: seq<AttributeInfo>)
  {
    forall i :: 0 <= i < |attrs| ==> InfoWF(pool, attrs[i])
  }

  /** `attribute_info`: name index, length, and the body the name selects. The
      name must be a `Utf8` entry of the pool; the length is read and kept but
      not used to delimit the body. */
  function ParseAttributeInfo(pool: seq<Constant>, s: seq<byte>): (r: Option<(AttributeInfo, seq<byte>)>)
    ensures r.Some? ==> |r.value.1| < |s| && InfoWF(pool, r.value.0)
    decreases |s|, 2
  {
    match ParseU16(s)
    case None => None
    case Some((nameIndex, t)) =>
      match ParseU32(t)
      case None => None
      case Some((length, u)) =>
        if nameIndex as int >= |pool| then None
        else
          match pool[nameIndex].GetUtf8()
          case None => None
          case Some(name) =>
            match ParseAttributeBody(pool, name, u)
            case None => None
            case Some((info, w)) => Some((AttributeInfo(nameIndex, length, info), w))
  }

  /** The body of the attribute called `name`; any name but the nine the
      reader knows is a failure. */
  function ParseAttributeBody(pool: seq<Constant>, name: string, s: seq<byte>): (r: Option<(Attribute, seq<byte>)>)
    ensures r.Some? ==> |r.value.1| <= |s| && NameOf(r.value.0) == name && AttributeWF(pool, r.value.0)
    decreases |s|, 1
  {
    if name == "Code" then ParseCode(pool, s)
    else if name == "LineNumberTable" then ParseLineNumberTable(s)
    else if name == "SourceFile" then ParseSourceFile(s)
    else if name == "StackMapTable" then ParseStackMapTable(s)
    else if name == "Signature" then ParseSignature(s)
    else if name == "Exceptions" then ParseExceptions(s)
    else if name == "Deprecated" then Some((Deprecated, s))
    else if name == "RuntimeVisibleAnnotations" then ParseRuntimeVisibleAnnotations(s)
    else if name == "InnerClasses" then ParseInnerClasses(s)
    else None
  }

  function ParseLineNumberTable(s: seq<byte>): (r: Option<(Attribute, seq<byte>)>)
    ensures r.Some? ==> |r.value.1| < |s| && r.value.0.LineNumberTable? && AttributeWF([], r.value.0)
  {
    match ParseU16(s)
    case None => None
    case Some((n, t)) =>
      match ParseCount(ParseLineNumber, t, n as nat)
      case None => None
      case Some((table, u)) => Some((LineNumberTable(n, table), u))
  }

  function ParseSourceFile(s: seq<byte>): (r: Option<(Attribute, seq<byte>)>)
    ensures r.Some? ==> |r.value.1| < |s| && r.value.0.SourceFile?
  {
    match ParseU16(s)
    case None => None
    case Some((index, t)) => Some((SourceFile(index), t))
  }

  function ParseStackMapTable(s: seq<byte>): (r: Option<(Attribute, seq<byte>)>)
    ensures r.Some? ==> |r.value.1| < |s| && r.value.0.StackMapTable? && AttributeWF([], r.value.0)
  {
    match ParseU16(s)
    case None => None
    case Some((n, t)) =>
      match ParseStackMapFrames(t, n as nat)
      case None => None
      case Some((entries, u)) => Some((StackMapTable(n, entries), u))
  }

  function ParseSignature(s: seq<byte>): (r: Option<(Attribute, seq<byte>)>)
    ensures r.Some? ==> |r.value.1| < |s| && r.value.0.Signature?
  {
    match ParseU16(s)
    case None => None
    case Some((index, t)) => Some((Signature(index), t))
  }

  function ParseExceptions(s: seq<byte>): (r: Option<(Attribute, seq<byte>)>)
    ensures r.Some? ==> |r.value.1| < |s| && r.value.0.Exceptions? && AttributeWF([], r.value.0)
  {
    match ParseU16(s)
    case None => None
    case Some((n, t)) =>
      match ParseCount(ParseU16, t, n as nat)
      case None => None
      case Some((table, u)) => Some((Exceptions(n, table), u))
  }

  function ParseRuntimeVisibleAnnotations(s: seq<byte>): (r: Option<(Attribute, seq<byte>)>)
    ensures r.Some? ==> |r.value.1| < |s| && r.value.0.RuntimeVisibleAnnotations? && AttributeWF([], r.value.0)
  {
    match ParseU16(s)
    case None => None
    case Some((n, t)) =>
      match ParseCount(ParseAnnotation, t, n as nat)
      case None => None
      case Some((annotations, u)) =>
        ParseCountAll(ParseAnnotation, (x: Annotation) => x.elementValuePairs == [], t, n as nat);
        Some((RuntimeVisibleAnnotations(n, annotations), u))
  }

  function ParseInnerClasses(s: seq<byte>): (r: Option<(Attribute, seq<byte>)>)
    ensures r.Some? ==> |r.value.1| < |s| && r.value.0.InnerClasses? && AttributeWF([], r.value.0)
  {
    match ParseU16(s)
    case None => None
    case Some((n, t)) =>
      match ParseCount(ParseInnerClass, t, n as nat)
      case None => None
      case Some((classes, u)) => Some((InnerClasses(n, classes), u))
  }

  /** The `Code` attribute: limits and the code bytes, then its tables. */
  function ParseCode(pool: seq<Constant>, s: seq<byte>): (r: Option<(Attribute, seq<byte>)>)
    ensures r.Some? ==> |r.value.1| < |s| && r.value.0.Code? && AttributeWF(pool, r.value.0)
    decreases |s|, 0
  {
    match ParseU16(s)
    case None => None
    case Some((maxStack, t1)) =>
      match ParseU16(t1)
      case None => None
      case Some((maxLocals, t2)) =>
        match ParseU32(t2)
        case None => None
        case Some((codeLength, t3)) =>
          match ParseBytes(t3, codeLength as nat)
          case None => None
          case Some((code, t4)) => ParseCodeTables(pool, maxStack, maxLocals, codeLength, code, t4)
  }

  /** The exception table and the nested attributes of a `Code` attribute,
      each as long as its count. */
  function ParseCodeTables(pool: seq<Constant>, maxStack: u16, maxLocals: u16, codeLength: u32,
                           code: seq<byte>, s: seq<byte>): (r: Option<(Attribute, seq<byte>)>)
    requires |code| == codeLength as int
    ensures r.Some? ==> |r.value.1| < |s| && r.value.0.Code? && AttributeWF(pool, r.value.0)
    decreases |s|, 0
  {
    match ParseU16(s)
    case None => None
    case Some((exceptionTableLength, t5)) =>
      match ParseCount(ParseException, t5, exceptionTableLength as nat)
      case None => None
      case Some((exceptionTable, t6)) =>
        match ParseU16(t6)
        case None => None
        case Some((attributesCount, t7)) =>
          match ParseAttributes(pool, t7, attributesCount as nat)
          case None => None
          case Some((attributes, t8)) =>
            Some((Code(maxStack, maxLocals, codeLength, code, exceptionTableLength,
                       exceptionTable, attributesCount, attributes), t8))
  }

  /** n attributes one after another. */
  function ParseAttributes(pool: seq<Constant>, s: seq<byte>, n: nat): (r: Option<(seq<AttributeInfo>, seq<byte>)>)
    ensures r.Some? ==> |r.value.0| == n && |r.value.1| <= |s| && AllInfoWF(pool, r.value.0)
    decreases |s|, n + 3
  {
    if n == 0 then Some(([], s))
    else
      match ParseAttributes(pool, s, n - 1)
      case None => None
      case Some((attrs, t)) =>
        match ParseAttributeInfo(pool, t)
        case None => None
        case Some((a, u)) => Some((attrs + [a], u))
  }

  lemma {:induction false} ParseAttributesFails(pool: seq<Constant>, s: seq<byte>, k: nat, n: nat)
    requires k <= n && ParseAttributes(pool, s, k).None?
    ensures ParseAttributes(pool, s, n).None?
    decreases n
  {
    if n > k {
      ParseAttributesFails(pool, s, k, n - 1);
    }
  }

  lemma ParseAttributesStep(pool: seq<Constant>, s: seq<byte>, k: nat, attrs: seq<AttributeInfo>, t: seq<byte>,
                            a: AttributeInfo, u: seq<byte>)
    requires ParseAttributes(pool, s, k) == Some((attrs, t)) && ParseAttributeInfo(pool, t) == Some((a, u))
    ensures ParseAttributes(pool, s, k + 1) == Some((attrs + [a], u))
  {
  }

  lemma ParseAttributesStop(pool: seq<Constant>, s: seq<byte>, k: nat, n: nat, attrs: seq<AttributeInfo>, t: seq<byte>)
    requires k < n && ParseAttributes(pool, s, k) == Some((attrs, t)) && ParseAttributeInfo(pool, t).None?
    ensures ParseAttributes(pool, s, n).None?
  {
    ParseAttributesFails(pool, s, k + 1, n);
  }

  // Fields and methods.

  predicate FieldWF(pool: seq<Constant>, f: FieldInfo)
  {
    |f.attributes| == f.attributesCount as int && AllInfoWF(pool, f.attributes)
  }

  predicate MethodWF(pool: seq<Constant>, m: MethodInfo)
  {
    |m.attributes| == m.attributesCount as int && AllInfoWF(pool, m.attributes)
  }

  /** `field_info`: flags, name, descriptor and counted attributes. */
  function ParseFieldInfo(pool: seq<Constant>, s: seq<byte>): (r: Option<(FieldInfo, seq<byte>)>)
    ensures r.Some? ==> |r.value.1| < |s| && FieldWF(pool, r.value.0)
  {
    match ParseU16(s)
    case None => None
    case Some((flags, t1)) =>
      match ParseU16(t1)
      case None => None
      case Some((name, t2)) =>
        match ParseU16(t2)
        case None => None
        case Some((descriptor, t3)) =>
          match ParseU16(t3)
          case None => None
          case Some((count, t4)) =>
            match ParseAttributes(pool, t4, count as nat)
            case None => None
            case Some((attrs, t5)) => Some((FieldInfo(flags, name, descriptor, count, attrs), t5))
  }

  /** `method_info`: the same layout as a field. */
  function ParseMethodInfo(pool: seq<Constant>, s: seq<byte>): (r: Option<(MethodInfo, seq<byte>)>)
    ensures r.Some? ==> |r.value.1| < |s| && MethodWF(pool, r.value.0)
  {
    match ParseU16(s)
    case None => None
    case Some((flags, t1)) =>
      match ParseU16(t1)
      case None => None
      case Some((name, t2)) =>
        match ParseU16(t2)
        case None => None
        case Some((descriptor, t3)) =>
          match ParseU16(t3)
          case None => None
          case Some((count, t4)) =>
            match ParseAttributes(pool, t4, count as nat)
            case None => None
            case Some((attrs, t5)) => Some((MethodInfo(flags, name, descriptor, count, attrs), t5))
  }

  /** The field reader for a given pool, as a table item. */
  function FieldItem(pool: seq<Constant>): seq<byte> -> Option<(FieldInfo, seq<byte>)>
  {
    (t: seq<byte>) => ParseFieldInfo(pool, t)
  }

  /** The method reader for a given pool, as a table item. */
  function MethodItem(pool: seq<Constant>): seq<byte> -> Option<(MethodInfo, seq<byte>)>
  {
    (t: seq<byte>) => ParseMethodInfo(pool, t)
  }

  /** An entry of `interfaces`: a bare `Class` constant body (no tag byte). */
  function ParseInterface(s: seq<byte>): (r: Option<(Constant, seq<byte>)>)
    ensures r.Some? ==> r.value.0.ClassInfo? && |r.value.1| < |s|
  {
    ParseConstant(ConstantType.Class, s)
  }

  // The constant pool.

  /** `Long` and `Double` entries take two slots. */
  predicate IsWide(c: Constant)
  {
    c.LongInfo? || c.DoubleInfo?
  }

  /** Slot 0 is the placeholder, a placeholder sits exactly after each wide
      entry, and the pool does not end with a wide entry. */
  predicate PoolLayout(pool: seq<Constant>)
  {
    |pool| > 0 && pool[0] == Empty && !IsWide(pool[|pool| - 1]) &&
    forall i :: 0 < i < |pool| ==> (pool[i] == Empty <==> IsWide(pool[i - 1]))
  }

  /** The wide entries are those of kind `Long` and `Double`. */
  lemma WideKinds(c: Constant)
    ensures IsWide(c) <==> c.Type() == Some(ConstantType.Long) || c.Type() == Some(ConstantType.Double)
  {
  }

  lemma PushNarrow(pool: seq<Constant>, c: Constant)
    requires PoolLayout(pool) && c != Empty && !IsWide(c)
    ensures PoolLayout(pool + [c])
  {
    var p := pool + [c];
    forall i | 0 < i < |p|
      ensures p[i] == Empty <==> IsWide(p[i - 1])
    {
      if i < |pool| {
        assert p[i] == pool[i] && p[i - 1] == pool[i - 1];
      }
    }
  }

  lemma PushWide(pool: seq<Constant>, c: Constant)
    requires PoolLayout(pool) && IsWide(c)
    ensures PoolLayout(pool + [c, Empty])
  {
    var p := pool + [c, Empty];
    forall i | 0 < i < |p|
      ensures p[i] == Empty <==> IsWide(p[i - 1])
    {
      if i < |pool| {
        assert p[i] == pool[i] && p[i - 1] == pool[i - 1];
      }
    }
  }

  /** The constant-pool loop from index idx with the pool built so far: while
      idx < limit, read an entry, append it, and for a wide entry also a
      placeholder, advancing idx by the slots taken. */
  function ParsePoolFrom(s: seq<byte>, idx: nat, limit: nat, pool: seq<Constant>): (r: Option<(seq<Constant>, seq<byte>)>)
    requires idx <= limit + 1 && |pool| == idx + 1 && PoolLayout(pool)
    ensures r.Some? ==> PoolLayout(r.value.0) && limit + 1 <= |r.value.0| <= limit + 2
    ensures r.Some? ==> |r.value.1| <= |s|
    ensures r.Some? && (idx == limit + 1 ==> IsWide(pool[limit])) ==>
              (|r.value.0| == limit + 2 <==> IsWide(r.value.0[limit]))
    decreases limit + 1 - idx
  {
    if idx >= limit then Some((pool, s))
    else
      match ParseEntry(s)
      case None => None
      case Some((c, t)) =>
        if IsWide(c) then
          PushWide(pool, c);
          ParsePoolFrom(t, idx + 2, limit, pool + [c, Empty])
        else
          PushNarrow(pool, c);
          ParsePoolFrom(t, idx + 1, limit, pool + [c])
  }

  /** The `constant_pool_count - 1` slots after the unused slot 0. */
  function ParsePool(s: seq<byte>, count: u16): (r: Option<(seq<Constant>, seq<byte>)>)
    requires count > 0
    ensures r.Some? ==> PoolLayout(r.value.0) && count as int <= |r.value.0| <= count as int + 1
    ensures r.Some? ==> |r.value.1| <= |s|
    ensures r.Some? ==> (|r.value.0| == count as int + 1 <==> IsWide(r.value.0[count as int - 1]))
  {
    ParsePoolFrom(s, 0, count as nat - 1, [Empty])
  }

  /** A `Long` in the middle of the pool takes two of the counted slots, so the
      pool has exactly `count` slots; only a wide last entry adds one more. */
  lemma WidePoolSlots(rest: seq<byte>)
    ensures ParsePool(EncodeEntry(LongInfo(7)) + rest, 3) == Some(([Empty, LongInfo(7), Empty], rest))
    ensures ParsePool(EncodeEntry(LongInfo(7)) + rest, 2) == Some(([Empty, LongInfo(7), Empty], rest))
  {
    var s := EncodeEntry(LongInfo(7)) + rest;
    var pool := [Empty, LongInfo(7), Empty];
    ParseEncodeEntry(LongInfo(7), rest);
    assert IsWide(LongInfo(7));
    PushWide([Empty], LongInfo(7));
    assert [Empty] + [LongInfo(7), Empty] == pool;
    assert ParsePoolFrom(rest, 2, 2, pool) == Some((pool, rest));
    assert ParsePoolFrom(s, 0, 2, [Empty]) == Some((pool, rest));
    assert ParsePoolFrom(rest, 2, 1, pool) == Some((pool, rest));
    assert ParsePoolFrom(s, 0, 1, [Empty]) == Some((pool, rest));
  }

  /** One turn of the constant-pool loop. */
  lemma PoolStep(s: seq<byte>, idx: nat, limit: nat, pool: seq<Constant>, c: Constant, t: seq<byte>)
    requires idx < limit && |pool| == idx + 1 && PoolLayout(pool)
    requires ParseEntry(s) == Some((c, t))
    ensures IsWide(c) ==>
              (PoolLayout(pool + [c, Empty]) &&
               ParsePoolFrom(s, idx, limit, pool) == ParsePoolFrom(t, idx + 2, limit, pool + [c, Empty]))
    ensures !IsWide(c) ==>
              (PoolLayout(pool + [c]) &&
               ParsePoolFrom(s, idx, limit, pool) == ParsePoolFrom(t, idx + 1, limit, pool + [c]))
  {
    if IsWide(c) {
      PushWide(pool, c);
    } else {
      PushNarrow(pool, c);
    }
  }

  // The class file.

  const MAGIC: u32 := 0xCAFEBABE

  /** `ClassFileReader::read`: magic, versions, the constant pool, flags and
      class indices, then the counted interfaces, fields, methods and
      attributes. Bytes after the last attribute are not looked at. A
      `constant_pool_count` of 0 makes the loop bound underflow, which is a
      failure. */
  function ParseClassFile(s: seq<byte>): (r: Option<ClassFile>)
  {
    match ParseU32(s)
    case None => None
    case Some((magic, s1)) =>
      if magic != MAGIC then None
      else
        match ParseU16(s1)
        case None => None
        case Some((minor, s2)) =>
          match ParseU16(s2)
          case None => None
          case Some((major, s3)) => ParsePoolAndBody(minor, major, s3)
  }

  /** The constant pool and everything after it. */
  function ParsePoolAndBody(minor: u16, major: u16, s: seq<byte>): (r: Option<ClassFile>)
  {
    match ParseU16(s)
    case None => None
    case Some((count, s4)) =>
      if count == 0 then None
      else
        match ParsePool(s4, count)
        case None => None
        case Some((pool, s5)) => ParseClassBody(minor, major, count, pool, s5)
  }

  /** Everything after the constant pool: flags, class indices and the
      interfaces, then the members. */
  function ParseClassBody(minor: u16, major: u16, count: u16, pool: seq<Constant>, s: seq<byte>): (r: Option<ClassFile>)
    ensures r.Some? ==> r.value.magic == MAGIC && r.value.constantPool == pool && r.value.constantPoolCount == count
    ensures r.Some? ==> TablesWF(r.value)
  {
    match ParseU16(s)
    case None => None
    case Some((flags, s1)) =>
      match ParseU16(s1)
      case None => None
      case Some((thisClass, s2)) =>
        match ParseU16(s2)
        case None => None
        case Some((superClass, s3)) =>
          match ParseU16(s3)
          case None => None
          case Some((interfacesCount, s4)) =>
            match ParseCount(ParseInterface, s4, interfacesCount as nat)
            case None => None
            case Some((interfaces, s5)) =>
              ParseCountAll(ParseInterface, (c: Constant) => c.ClassInfo?, s4, interfacesCount as nat);
              ParseMembers(ClassFile(MAGIC, minor, major, count, pool, flags, thisClass, superClass,
                                     interfacesCount, interfaces, 0, [], 0, [], 0, []), s5)
  }

  /** The fields, methods and attributes of the class, filled into `cf`,
      which holds everything read before them. */
  function ParseMembers(cf: ClassFile, s: seq<byte>): (r: Option<ClassFile>)
    requires |cf.interfaces| == cf.interfacesCount as int
    requires forall i :: 0 <= i < |cf.interfaces| ==> cf.interfaces[i].ClassInfo?
    ensures r.Some? ==> r.value == cf.(fieldsCount := r.value.fieldsCount, fields := r.value.fields,
                                       methodsCount := r.value.methodsCount, methods := r.value.methods,
                                       attributesCount := r.value.attributesCount, attributes := r.value.attributes)
    ensures r.Some? ==> TablesWF(r.value)
  {
    var pool := cf.constantPool;
    match ParseU16(s)
    case None => None
    case Some((fieldsCount, s6)) =>
      match ParseCount(FieldItem(pool), s6, fieldsCount as nat)
      case None => None
      case Some((fields, s7)) =>
        match ParseU16(s7)
        case None => None
        case Some((methodsCount, s8)) =>
          match ParseCount(MethodItem(pool), s8, methodsCount as nat)
          case None => None
          case Some((methods, s9)) =>
            match ParseU16(s9)
            case None => None
            case Some((attributesCount, s10)) =>
              match ParseAttributes(pool, s10, attributesCount as nat)
              case None => None
              case Some((attributes, _)) =>
                ParseCountAll(FieldItem(pool), (f: FieldInfo) => FieldWF(pool, f), s6, fieldsCount as nat);
                ParseCountAll(MethodItem(pool), (m: MethodInfo) => MethodWF(pool, m), s8, methodsCount as nat);
                Some(cf.(fieldsCount := fieldsCount, fields := fields, methodsCount := methodsCount,
                         methods := methods, attributesCount := attributesCount, attributes := attributes))
  }

  /** The tables after the constant pool are as long as their counts, the
      interfaces are `Class` entries, and every attribute is well formed. */
  predicate TablesWF(cf: ClassFile)
  {
    |cf.interfaces| == cf.interfacesCount as int &&
    (forall i :: 0 <= i < |cf.interfaces| ==> cf.interfaces[i].ClassInfo?) &&
    |cf.fields| == cf.fieldsCount as int &&
    (forall i :: 0 <= i < |cf.fields| ==> FieldWF(cf.constantPool, cf.fields[i])) &&
    |cf.methods| == cf.methodsCount as int &&
    (forall i :: 0 <= i < |cf.methods| ==> MethodWF(cf.constantPool, cf.methods[i])) &&
    |cf.attributes| == cf.attributesCount as int &&
    AllInfoWF(cf.constantPool, cf.attributes)
  }

  /** What every class file the reader returns satisfies. */
  predicate ClassFileWF(cf: ClassFile)
  {
    cf.magic == MAGIC &&
    PoolLayout(cf.constantPool) &&
    cf.constantPoolCount as int <= |cf.constantPool| <= cf.constantPoolCount as int + 1 &&
    TablesWF(cf)
  }

  /** A class file the reader returns has the magic number, the constant-pool
      layout of section 4.4.5, and tables as long as their counts. */
  lemma ParsedClassFileWF(s: seq<byte>)
    ensures ParseClassFile(s).Some? ==> ClassFileWF(ParseClassFile(s).value)
  {
    if ParseClassFile(s).Some? {
      var s4 := s[10..];
      var count := BE16(s[8], s[9]);
      assert ParsePool(s4, count).Some?;
    }
  }

  /** Input that does not start with 0xCAFEBABE is rejected. */
  lemma BadMagicRejected(s: seq<byte>)
    requires |s| < 4 || BE32(s[0], s[1], s[2], s[3]) != MAGIC
    ensures ParseClassFile(s).None?
  {
  }

  /** A first constant-pool tag that table 4.4-A does not assign is rejected. */
  lemma BadFirstTagRejected(s: seq<byte>)
    requires |s| > 10 && BE16(s[8], s[9]) >= 2 && s[10] !in ValidTags
    ensures ParseClassFile(s).None?
  {
    var s4 := s[10..];
    assert s4[0] == s[10];
    assert ParseEntry(s4).None?;
  }

  /** In a parsed class file every method satisfies what the code lookup needs. */
  lemma ParsedMethodsHaveCounts(s: seq<byte>, i: nat)
    requires ParseClassFile(s).Some? && i < |ParseClassFile(s).value.methods|
    ensures var m := ParseClassFile(s).value.methods[i];
            m.attributesCount as int <= |m.attributes|
  {
    ParsedClassFileWF(s);
  }
}
