/** The constant-pool tag table (table 4.4-A of The Java Virtual Machine
    Specification, Java SE 8 Edition, section 4.4) and the constant-pool
    entries with their two projections. */
module ConstantPool {
  import opened Base

  datatype ConstantType =
    | Class | Fieldref | Methodref | InterfaceMethodref | String | Integer | Float
    | Long | Double | NameAndType | Utf8 | MethodHandle | MethodType | InvokeDynamic
  {
    /** The tag byte of this kind of constant. */
    function Value(): (v: byte)
      ensures v in ValidTags
    {
      match this
      case Class => 7
      case Fieldref => 9
      case Methodref => 10
      case InterfaceMethodref => 11
      case String => 8
      case Integer => 3
      case Float => 4
      case Long => 5
      case Double => 6
      case NameAndType => 12
      case Utf8 => 1
      case MethodHandle => 15
      case MethodType => 16
      case InvokeDynamic => 18
    }
  }

  /** The tags that table 4.4-A assigns. */
  const ValidTags: set<int> := {1, 3, 4, 5, 6, 7, 8, 9, 10, 11, 12, 15, 16, 18}

  /** Decodes a tag byte; `None` for a byte that names no constant kind. */
  function FromTag(val: byte): (r: Option<ConstantType>)
    ensures r.Some? <==> val in ValidTags
    ensures r.Some? ==> r.value.Value() == val
  {
    match val
    case 7 => Some(Class)
    case 9 => Some(Fieldref)
    case 10 => Some(Methodref)
    case 11 => Some(InterfaceMethodref)
    case 8 => Some(String)
    case 3 => Some(Integer)
    case 4 => Some(Float)
    case 5 => Some(Long)
    case 6 => Some(Double)
    case 12 => Some(NameAndType)
    case 1 => Some(Utf8)
    case 15 => Some(MethodHandle)
    case 16 => Some(MethodType)
    case 18 => Some(InvokeDynamic)
    case _ => None
  }

  /** Decoding the tag of any constant kind gives that kind back. */
  lemma TagRoundTrip(t: ConstantType)
    ensures FromTag(t.Value()) == Some(t)
  {
    match t
    case Class =>
    case Fieldref =>
    case Methodref =>
    case InterfaceMethodref =>
    case String =>
    case Integer =>
    case Float =>
    case Long =>
    case Double =>
    case NameAndType =>
    case Utf8 =>
    case MethodHandle =>
    case MethodType =>
    case InvokeDynamic =>
  }

  /** Distinct constant kinds have distinct tags. */
  lemma ValueInjective(t1: ConstantType, t2: ConstantType)
    requires t1.Value() == t2.Value()
    ensures t1 == t2
  {
    TagRoundTrip(t1);
    TagRoundTrip(t2);
  }

  /** One entry of the constant pool. `Empty` is the source's `Constant::None`:
      slot 0 and the unusable slot after a `Long` or `Double`. Float and double
      constants keep their raw bit patterns. */
  datatype Constant =
    | MethodrefInfo(classIndex: u16, nameAndTypeIndex: u16)
    | FieldrefInfo(classIndex: u16, nameAndTypeIndex: u16)
    | InterfaceMethodrefInfo(classIndex: u16, nameAndTypeIndex: u16)
    | StringInfo(stringIndex: u16)
    | ClassInfo(nameIndex: u16)
    | Utf8Info(s: string)
    | NameAndTypeInfo(nameIndex: u16, descriptorIndex: u16)
    | IntegerInfo(i: i32)
    | FloatInfo(floatBits: u32)
    | LongInfo(l: i64)
    | DoubleInfo(doubleBits: u64)
    | MethodHandleInfo(referenceKind: byte, referenceIndex: u16)
    | MethodTypeInfo(descriptorIndex: u16)
    | InvokeDynamicInfo(bootstrapMethodAttrIndex: u16, nameAndTypeIndex: u16)
    | Empty
  {
    /** The kind of constant this entry holds; nothing for `Empty`. */
    function Type(): Option<ConstantType>
    {
      match this
      case MethodrefInfo(_, _) => Some(Methodref)
      case FieldrefInfo(_, _) => Some(Fieldref)
      case InterfaceMethodrefInfo(_, _) => Some(InterfaceMethodref)
      case StringInfo(_) => Some(String)
      case ClassInfo(_) => Some(Class)
      case Utf8Info(_) => Some(Utf8)
      case NameAndTypeInfo(_, _) => Some(NameAndType)
      case IntegerInfo(_) => Some(Integer)
      case FloatInfo(_) => Some(Float)
      case LongInfo(_) => Some(Long)
      case DoubleInfo(_) => Some(Double)
      case MethodHandleInfo(_, _) => Some(MethodHandle)
      case MethodTypeInfo(_) => Some(MethodType)
      case InvokeDynamicInfo(_, _) => Some(InvokeDynamic)
      case Empty => None
    }

    /** The string of a `Utf8` constant, and nothing for any other entry. */
    function GetUtf8(): (r: Option<string>)
      ensures r.Some? <==> Utf8Info?
      ensures r.Some? ==> this == Utf8Info(r.value)
    {
      match this
      case Utf8Info(s) => Some(s)
      case _ => None
    }

    /** The name index of a `Class` constant, and nothing for any other entry. */
    function GetClassNameIndex(): (r: Option<nat>)
      ensures r.Some? <==> ClassInfo?
      ensures r.Some? ==> r.value == nameIndex as nat
    {
      match this
      case ClassInfo(nameIndex) => Some(nameIndex as nat)
      case _ => None
    }
  }
}
