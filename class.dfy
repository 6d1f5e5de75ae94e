/** A loaded class: its parsed class file and the lookup of its own name. */
module Classes {
  import opened Base
  import opened ConstantPool
  import opened ClassFiles

  class Class {
    var classfile: ClassFile

    /** `Class::new`: an empty class file. */
    constructor ()
      ensures classfile == NewClassFile()
    {
      classfile := NewClassFile();
    }

    /** `load_classfile`, with opening and parsing the file given as its
        result `parsed`: the class file is replaced only when parsing succeeded. */
    method LoadClassfile(parsed: Option<ClassFile>) returns (r: Option<()>)
      modifies this
      ensures r.Some? <==> parsed.Some?
      ensures classfile == if parsed.Some? then parsed.value else old(classfile)
    {
      if parsed.None? {
        return None;
      }
      classfile := parsed.value;
      r := Some(());
    }

    /** `get_name`: the `Utf8` entry named by the `Class` entry at `this_class`.
        An index outside the pool panics in the source and is `None` here, as
        is an entry of another kind at either step. */
    function GetName(): (r: Option<string>)
      reads this
      ensures var pool := classfile.constantPool;
              var i := classfile.thisClass as int;
              r.Some? <==> i < |pool| && pool[i].ClassInfo? &&
                           pool[i].nameIndex as int < |pool| && pool[pool[i].nameIndex].Utf8Info?
      ensures var pool := classfile.constantPool;
              r.Some? ==> pool[pool[classfile.thisClass].nameIndex] == Utf8Info(r.value)
    {
      var pool := classfile.constantPool;
      if classfile.thisClass as int >= |pool| then None
      else
        match pool[classfile.thisClass].GetClassNameIndex()
        case None => None
        case Some(nameIndex) =>
          if nameIndex as int >= |pool| then None else pool[nameIndex].GetUtf8()
    }
  }
}
