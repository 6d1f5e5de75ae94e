/** Interpreter values and call frames. */
module Frames {
  import opened Base
  import opened Methods

  /** A slot of the operand/local stack. `Float` and `Double` keep their IEEE
      bit patterns; `Object` is a heap id and `Pointer` an abstract address. */
  datatype Variable =
    | Char(c: i8)
    | Short(s: i16)
    | Int(i: i32)
    | Float(floatBits: u32)
    | Double(doubleBits: u64)
    | Object(heapId: nat)
    | Pointer(address: nat)
  {
    /** The variants `get_int` accepts. */
    predicate IsIntLike() { Char? || Short? || Int? }

    /** `get_int`: `Char` and `Short` sign-extended, `Int` as it is; any other
        variant panics, which is `None` here. */
    function GetInt(): (r: Option<i32>)
      ensures r.Some? <==> IsIntLike()
      ensures Char? ==> r == Some(c as i32) && -0x80 <= r.value < 0x80
      ensures Short? ==> r == Some(s as i32) && -0x8000 <= r.value < 0x8000
      ensures Int? ==> r == Some(i)
    {
      match this
      case Char(n) => Some(n as i32)
      case Short(n) => Some(n as i32)
      case Int(n) => Some(n)
      case _ => None
    }
  }

  /** One activation: the method, its class (an abstract class key), the
      program counter and the operand-stack depth. */
  class Frame {
    var classRef: Option<nat>
    var methodInfo: MethodInfo
    var pc: nat
    var sp: nat
    var stack: seq<Variable>

    /** `Frame::new`. */
    constructor ()
      ensures classRef == None && methodInfo == NewMethodInfo()
      ensures pc == 0 && sp == 0 && stack == []
    {
      classRef := None;
      methodInfo := NewMethodInfo();
      pc := 0;
      sp := 0;
      stack := [];
    }

    /** `init_stack`: pushes 100 copies of `Int(1)`. */
    method InitStack()
      modifies this
      ensures stack == old(stack) + Ones(100)
      ensures classRef == old(classRef) && methodInfo == old(methodInfo) && pc == old(pc) && sp == old(sp)
    {
      var k := 0;
      while k < 100
        invariant 0 <= k <= 100
        invariant stack == old(stack) + Ones(k)
        invariant classRef == old(classRef) && methodInfo == old(methodInfo) && pc == old(pc) && sp == old(sp)
      {
        stack := stack + [Int(1)];
        OnesSnoc(k);
        k := k + 1;
      }
    }
  }

  /** n copies of `Int(1)`. */
  function Ones(n: nat): (r: seq<Variable>)
    ensures |r| == n && forall i :: 0 <= i < n ==> r[i] == Int(1)
  {
    seq(n, _ => Int(1))
  }

  lemma OnesSnoc(n: nat)
    ensures Ones(n) + [Int(1)] == Ones(n + 1)
  {
  }
}
