/** The `ClassFile` structure (section 4.1 of The Java Virtual Machine
    Specification, Java SE 8 Edition) and `field_info`. */
module ClassFiles {
  import opened Base
  import opened ConstantPool
  import opened Attributes
  import opened Methods

  /** `field_info`; its declaration is not part of this model, so the fields
      are those the reader fills in. */
  datatype FieldInfo = FieldInfo(accessFlags: u16, nameIndex: u16, descriptorIndex: u16,
                                 attributesCount: u16, attributes: seq<AttributeInfo>)

  datatype ClassFile = ClassFile(
    magic: u32,
    minorVersion: u16,
    majorVersion: u16,
    constantPoolCount: u16,
    constantPool: seq<Constant>,
    accessFlags: u16,
    thisClass: u16,
    superClass: u16,
    interfacesCount: u16,
    interfaces: seq<Constant>,
    fieldsCount: u16,
    fields: seq<FieldInfo>,
    methodsCount: u16,
    methods: seq<MethodInfo>,
    attributesCount: u16,
    attributes: seq<AttributeInfo>)

  /** `ClassFile::new`: every number zero and every table empty. */
  function NewClassFile(): (cf: ClassFile)
    ensures cf.magic == 0 && cf.minorVersion == 0 && cf.majorVersion == 0
    ensures cf.constantPoolCount == 0 && cf.constantPool == []
    ensures cf.accessFlags == 0 && cf.thisClass == 0 && cf.superClass == 0
    ensures cf.interfacesCount == 0 && cf.interfaces == []
    ensures cf.fieldsCount == 0 && cf.fields == []
    ensures cf.methodsCount == 0 && cf.methods == []
    ensures cf.attributesCount == 0 && cf.attributes == []
  {
    ClassFile(0, 0, 0, 0, [], 0, 0, 0, 0, [], 0, [], 0, [], 0, [])
  }
}
