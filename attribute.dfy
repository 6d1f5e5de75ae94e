/** Attributes of fields, methods, code and classes as the reader builds them
    (section 4.7 of The Java Virtual Machine Specification, Java SE 8 Edition). */
module Attributes {
  import opened Base

  datatype AttributeInfo = AttributeInfo(attributeNameIndex: u16, attributeLength: u32, info: Attribute)

  datatype Attribute =
    | Code(maxStack: u16, maxLocals: u16, codeLength: u32, code: seq<byte>,
           exceptionTableLength: u16, exceptionTable: seq<ExceptionEntry>,
           attributesCount: u16, attributes: seq<AttributeInfo>)
    | LineNumberTable(lineNumberTableLength: u16, lineNumberTable: seq<LineNumber>)
    | SourceFile(sourcefileIndex: u16)
    | StackMapTable(numberOfEntries: u16, entries: seq<StackMapFrame>)
    | Signature(signatureIndex: u16)
    | Exceptions(numberOfExceptions: u16, exceptionIndexTable: seq<u16>)
    | Deprecated
    | RuntimeVisibleAnnotations(numAnnotations: u16, annotations: seq<Annotation>)
    | InnerClasses(numberOfClasses: u16, classes: seq<InnerClassesBody>)

  datatype InnerClassesBody = InnerClassesBody(
    innerClassInfoIndex: u16, outerClassInfoIndex: u16,
    innerNameIndex: u16, innerClassAccessFlags: u16)

  /** One row of a `Code` attribute's exception table (the source's `Exception`). */
  datatype ExceptionEntry = ExceptionEntry(startPc: u16, endPc: u16, handlerPc: u16, catchType: u16)

  datatype LineNumber = LineNumber(startPc: u16, lineNumber: u16)

  datatype StackMapFrame = StackMapFrame(frameType: byte, body: StackMapFrameBody)

  datatype StackMapFrameBody =
    | SameFrame
    | SameLocals1StackItemFrame(stackItem: VerificationTypeInfo)
    | AppendFrame(offsetDelta: u16, locals: seq<VerificationTypeInfo>)
    | ChopFrame(offsetDelta: u16)
    | FullFrame(offsetDelta: u16, numberOfLocals: u16, locals: seq<VerificationTypeInfo>,
                numberOfStackItems: u16, stack: seq<VerificationTypeInfo>)

  datatype VerificationTypeInfo =
    | Top | Integer | Float | Long | Double | Null | UninitializedThis
    | Object(cpoolIndex: u16)
    | Uninitialized

  /** The source leaves element values unimplemented; the type has no content. */
  datatype ElementValue = ElementValue

  datatype ElementValuePair = ElementValuePair(elementNameIndex: u16, value: ElementValue)

  datatype Annotation = Annotation(typeIndex: u16, numElementValuePairs: u16,
                                   elementValuePairs: seq<ElementValuePair>)

  /** The attribute name the reader dispatches on for each kind of attribute. */
  function NameOf(a: Attribute): string
  {
    match a
    case Code(_, _, _, _, _, _, _, _) => "Code"
    case LineNumberTable(_, _) => "LineNumberTable"
    case SourceFile(_) => "SourceFile"
    case StackMapTable(_, _) => "StackMapTable"
    case Signature(_) => "Signature"
    case Exceptions(_, _) => "Exceptions"
    case Deprecated => "Deprecated"
    case RuntimeVisibleAnnotations(_, _) => "RuntimeVisibleAnnotations"
    case InnerClasses(_, _) => "InnerClasses"
  }
}
