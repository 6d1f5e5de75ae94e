/** `method_info` structures and the two queries the interpreter makes of them. */
module Methods {
  import opened Base
  import opened Attributes

  const ACC_PUBLIC: u16 := 0x0001
  const ACC_STATIC: u16 := 0x0008
  const ACC_SUPER: u16 := 0x0020
  const ACC_NATIVE: u16 := 0x0100

  datatype MethodInfo = MethodInfo(accessFlags: u16, nameIndex: u16, descriptorIndex: u16,
                                   attributesCount: u16, attributes: seq<AttributeInfo>)
  {
    /** The first `Code` attribute among the first `attributesCount` entries. */
    function GetCodeAttribute(): (r: Option<Attribute>)
      requires attributesCount as int <= |attributes|
      ensures r.Some? ==> r.value.Code?
      ensures r.Some? <==> exists i :: 0 <= i < attributesCount as int && attributes[i].info.Code?
      ensures r.Some? ==> exists i :: 0 <= i < attributesCount as int && attributes[i].info == r.value
                                       && forall j :: 0 <= j < i ==> !attributes[j].info.Code?
    {
      var k := FirstCodeIndex(attributes, 0, attributesCount as int);
      if k < attributesCount as int then Some(attributes[k].info) else None
    }

    /** Whether any bit of `flag` is set in the access flags. */
    function CheckAccessFlags(flag: u16): (r: bool)
      ensures flag == 0 || accessFlags == 0 ==> !r
    {
      BitAnd(accessFlags, flag) > 0
    }
  }

  /** The index of the first `Code` attribute in attrs[i..n], or n when there is none. */
  function FirstCodeIndex(attrs: seq<AttributeInfo>, i: int, n: int): (k: int)
    requires 0 <= i <= n <= |attrs|
    ensures i <= k <= n
    ensures forall j :: i <= j < k ==> !attrs[j].info.Code?
    ensures k < n ==> attrs[k].info.Code?
    decreases n - i
  {
    if i == n then n
    else if attrs[i].info.Code? then i
    else FirstCodeIndex(attrs, i + 1, n)
  }

  /** `MethodInfo::new`: every field zero and no attributes. */
  function NewMethodInfo(): (m: MethodInfo)
    ensures m.accessFlags == 0 && m.nameIndex == 0 && m.descriptorIndex == 0
    ensures m.attributesCount == 0 && m.attributes == []
  {
    MethodInfo(0, 0, 0, 0, [])
  }

  /** A freshly created method has no code. */
  lemma NewMethodHasNoCode()
    ensures NewMethodInfo().GetCodeAttribute() == None
  {
  }

  /** For a single-bit flag such as ACC_NATIVE (bit 8), the check tests that bit. */
  lemma CheckSingleFlag(m: MethodInfo, k: nat)
    requires k < 16
    ensures Pow2(k) < 0x1_0000 && (m.CheckAccessFlags(Pow2(k)) <==> HasBit(m.accessFlags, k))
  {
    Pow2Monotone(k, 15);
    Pow2Values();
    BitAndSingleBit(m.accessFlags, k);
  }
}
