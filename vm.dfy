/** The interpreter's state, `VM`: a fixed stack of 1024 slots shared by all
    activations, the base pointer `bp` of the running method's slots in it,
    and the stack of call frames whose last entry is the running frame. Each
    method below changes the state as `VM::run` or `run_invoke_static` does,
    and is proved to agree with the step function of `Bytecode`. The class
    heap and the object heap the source's `VM` holds are not part of this
    model. */
module Interpreter {
  import opened Base
  import opened Attributes
  import opened Methods
  import opened Frames
  import opened Bytecode
  import opened Descriptors

  /** The number of slots `VM::new` allocates. */
  const STACK_SLOTS: nat := 1024

  /** The machine after a step with outcome o: the new machine when the
      step continued or returned, and the old one when it faulted or met an
      opcode outside the model. */
  function After(m: Machine, o: Outcome): Machine
  {
    match o
    case Next(n) => n
    case Returned(_, f) => f
    case _ => m
  }

  /** A method's code: its first `Code` attribute. `None` where `run`
      panics: no such attribute, or a count past the attribute list. */
  function CodeOf(mi: MethodInfo): (r: Option<seq<byte>>)
    ensures r.Some? ==> mi.attributesCount as int <= |mi.attributes| && mi.GetCodeAttribute().Some?
  {
    if mi.attributesCount as int > |mi.attributes| then None
    else match mi.GetCodeAttribute()
      case Some(a) => Some(a.code)
      case None => None
  }

  /** `VM::run` from machine m on the method mi, with at most `fuel` steps: a
      native method is handed to `run_native_method` (whose console output is
      not modelled), a method without code panics, and otherwise the
      interpreter loop runs. */
  function RunMethod(mi: MethodInfo, m: Machine, fuel: nat): RunResult
  {
    if mi.CheckAccessFlags(ACC_NATIVE) then Native(m)
    else match CodeOf(mi)
      case None => Crashed(m)
      case Some(code) => Steps(code, m, fuel)
  }

  /** The `max_locals` of a method's code, where `run_invoke_static` reads it. */
  function MaxLocals(mi: MethodInfo): (r: Option<nat>)
    ensures r.Some? <==> CodeOf(mi).Some?
  {
    if mi.attributesCount as int > |mi.attributes| then None
    else match mi.GetCodeAttribute()
      case Some(a) => Some(a.maxLocals as nat)
      case None => None
  }

  /** Where an invocation puts things: the slots passed, the callee's `bp`
      and starting `sp`, and the caller's `sp` once the callee returned. */
  datatype CallLayout = CallLayout(params: nat, calleeBp: nat, calleeSp: nat, callerSp: nat)

  /** The bookkeeping of `run_invoke_static` for a caller whose `bp` and
      `sp` are given: the callee's slots begin at the caller's first
      argument; its `sp` starts past the arguments and, unless it is native,
      past its `max_locals`; afterwards the caller has dropped the arguments
      and gained the result, if the descriptor has one. `None` where the
      source panics: a malformed descriptor, a callee without code, or fewer
      operands than arguments (a `usize` underflow). */
  function Layout(isStatic: bool, descriptor: string, callee: MethodInfo, bp: nat, sp: nat): (r: Option<CallLayout>)
    ensures r.Some? ==> ParamSlots(descriptor, isStatic) == Some(r.value.params) && r.value.params <= sp
  {
    match ParamSlots(descriptor, isStatic)
    case None => None
    case Some(p) =>
      var start := if callee.CheckAccessFlags(ACC_NATIVE) then Some(p)
                   else match MaxLocals(callee)
                     case None => None
                     case Some(ml) => Some(p + ml);
      if start.None? || sp < p then None
      else Some(CallLayout(p, bp + (sp - p), start.value,
                           sp - p + (if ReturnsValue(descriptor) then 1 else 0)))
  }

  /** The computation of `Layout` as `run_invoke_static` performs it:
      counting the descriptor's slots, then reading `max_locals`. */
  method PrepareCall(isStatic: bool, descriptor: string, callee: MethodInfo, bp: nat, sp: nat)
    returns (l: Option<CallLayout>)
    ensures l == Layout(isStatic, descriptor, callee, bp, sp)
  {
    var p := ParamsNum(descriptor, isStatic);
    if p.None? {
      return None;
    }
    var spStart := p.value;
    if !callee.CheckAccessFlags(ACC_NATIVE) {
      var ml := MaxLocals(callee);
      if ml.None? {
        return None;
      }
      spStart := spStart + ml.value;
    }
    if sp < p.value {
      return None;
    }
    var callerSp := sp - p.value;
    if ReturnsValue(descriptor) {
      callerSp := callerSp + 1;
    }
    l := Some(CallLayout(p.value, bp + (sp - p.value), spStart, callerSp));
  }

  /** The arguments are passed in place: the callee's first locals are the
      caller's top `params` operand slots, and its own operands start above
      its locals. */
  lemma ArgumentsBecomeLocals(isStatic: bool, descriptor: string, callee: MethodInfo, bp: nat, sp: nat)
    requires Layout(isStatic, descriptor, callee, bp, sp).Some?
    ensures var l := Layout(isStatic, descriptor, callee, bp, sp).value;
            l.calleeBp + l.params == bp + sp &&
            l.calleeSp == l.params + (if callee.CheckAccessFlags(ACC_NATIVE) then 0 else MaxLocals(callee).value)
  {
  }

  /** A value the callee leaves in its slot `bp` (as `ireturn` does) is the
      caller's new top of stack. */
  lemma ResultOnCallerTop(isStatic: bool, descriptor: string, callee: MethodInfo, bp: nat, sp: nat)
    requires Layout(isStatic, descriptor, callee, bp, sp).Some? && ReturnsValue(descriptor)
    ensures var l := Layout(isStatic, descriptor, callee, bp, sp).value;
            l.callerSp >= 1 && l.calleeBp == bp + l.callerSp - 1
  {
  }

  /** For a descriptor built from parameter types, the caller's stack shrinks
      by the parameters' slots and the receiver, and grows by one for a
      non-void result. */
  lemma CallerStackEffect(ps: seq<FieldType>, ret: string, isStatic: bool, callee: MethodInfo, bp: nat, sp: nat)
    requires forall i :: 0 <= i < |ps| ==> WellFormed(ps[i])
    requires forall k :: 0 <= k < |ret| ==> ret[k] != ')'
    requires Layout(isStatic, EncodeDescriptor(ps, ret), callee, bp, sp).Some?
    ensures Layout(isStatic, EncodeDescriptor(ps, ret), callee, bp, sp).value.callerSp ==
              sp - TotalSlots(ps) - (if isStatic then 0 else 1) + (if ret != "V" then 1 else 0)
  {
    ParamSlotsOfDescriptor(ps, ret, isStatic);
    ReturnsValueOfDescriptor(ps, ret);
  }

  class VM {
    var frameStack: seq<Frame>
    var stack: array<Variable>
    var bp: nat

    ghost predicate Valid()
      reads this
    {
      |frameStack| > 0 && stack.Length == STACK_SLOTS
    }

    /** The running frame, `frame_stack.last_mut().unwrap()`. */
    function Top(): Frame
      reads this
      requires |frameStack| > 0
    {
      frameStack[|frameStack| - 1]
    }

    /** What the integer opcodes see of the VM. */
    function State(): Machine
      reads this, stack, Top()
      requires |frameStack| > 0
    {
      Machine(stack[..], bp, Top().pc, Top().sp)
    }

    /** `VM::new`: 1024 slots holding `Int(0)`, `bp` zero, and one fresh frame. */
    constructor ()
      ensures Valid() && fresh(stack) && bp == 0
      ensures |frameStack| == 1 && fresh(Top())
      ensures forall i :: 0 <= i < STACK_SLOTS ==> stack[i] == Int(0)
      ensures Top().classRef == None && Top().methodInfo == NewMethodInfo()
      ensures Top().pc == 0 && Top().sp == 0 && Top().stack == []
    {
      var slots := new Variable[STACK_SLOTS];
      for i := 0 to STACK_SLOTS
        invariant forall j :: 0 <= j < i ==> slots[j] == Int(0)
      {
        slots[i] := Int(0);
      }
      var f := new Frame();
      frameStack := [f];
      stack := slots;
      bp := 0;
    }

    // The opcode families, each as `run` executes it on the running frame.

    method ExecPush(v: Variable, len: nat) returns (o: Outcome)
      requires Valid()
      modifies stack, Top()
      ensures Valid() && frameStack == old(frameStack) && stack == old(stack) && bp == old(bp)
      ensures Top().classRef == old(Top().classRef) && Top().methodInfo == old(Top().methodInfo)
      ensures Top().stack == old(Top().stack)
      ensures o == Push(old(State()), v, len) && State() == After(old(State()), o)
    {
      var f := Top();
      var dst := bp + f.sp;
      if dst >= stack.Length {
        return Fault;
      }
      stack[dst] := v;
      f.sp := f.sp + 1;
      f.pc := f.pc + len;
      o := Next(State());
    }

    method ExecLoad(index: nat, len: nat) returns (o: Outcome)
      requires Valid()
      modifies stack, Top()
      ensures Valid() && frameStack == old(frameStack) && stack == old(stack) && bp == old(bp)
      ensures Top().classRef == old(Top().classRef) && Top().methodInfo == old(Top().methodInfo)
      ensures Top().stack == old(Top().stack)
      ensures o == Load(old(State()), index, len) && State() == After(old(State()), o)
    {
      var f := Top();
      var src, dst := bp + index, bp + f.sp;
      if src >= stack.Length || dst >= stack.Length {
        return Fault;
      }
      stack[dst] := stack[src];
      f.sp := f.sp + 1;
      f.pc := f.pc + len;
      o := Next(State());
    }

    method ExecStore(index: nat, len: nat) returns (o: Outcome)
      requires Valid()
      modifies stack, Top()
      ensures Valid() && frameStack == old(frameStack) && stack == old(stack) && bp == old(bp)
      ensures Top().classRef == old(Top().classRef) && Top().methodInfo == old(Top().methodInfo)
      ensures Top().stack == old(Top().stack)
      ensures o == Store(old(State()), index, len) && State() == After(old(State()), o)
    {
      var f := Top();
      if f.sp == 0 || bp + f.sp > stack.Length || bp + index >= stack.Length {
        return Fault;
      }
      stack[bp + index] := stack[bp + f.sp - 1];
      f.sp := f.sp - 1;
      f.pc := f.pc + len;
      o := Next(State());
    }

    method ExecPop() returns (o: Outcome)
      requires Valid()
      modifies stack, Top()
      ensures Valid() && frameStack == old(frameStack) && stack == old(stack) && bp == old(bp)
      ensures Top().classRef == old(Top().classRef) && Top().methodInfo == old(Top().methodInfo)
      ensures Top().stack == old(Top().stack)
      ensures o == Pop(old(State())) && State() == After(old(State()), o)
    {
      var f := Top();
      if f.sp == 0 {
        return Fault;
      }
      f.sp := f.sp - 1;
      f.pc := f.pc + 1;
      o := Next(State());
    }

    method ExecDup() returns (o: Outcome)
      requires Valid()
      modifies stack, Top()
      ensures Valid() && frameStack == old(frameStack) && stack == old(stack) && bp == old(bp)
      ensures Top().classRef == old(Top().classRef) && Top().methodInfo == old(Top().methodInfo)
      ensures Top().stack == old(Top().stack)
      ensures o == Dup(old(State())) && State() == After(old(State()), o)
    {
      var f := Top();
      var top := bp + f.sp;
      if top == 0 || top >= stack.Length {
        return Fault;
      }
      stack[top] := stack[top - 1];
      f.sp := f.sp + 1;
      f.pc := f.pc + 1;
      o := Next(State());
    }

    /** `iadd` (add) and `isub`. */
    method ExecArith(add: bool) returns (o: Outcome)
      requires Valid()
      modifies stack, Top()
      ensures Valid() && frameStack == old(frameStack) && stack == old(stack) && bp == old(bp)
      ensures Top().classRef == old(Top().classRef) && Top().methodInfo == old(Top().methodInfo)
      ensures Top().stack == old(Top().stack)
      ensures o == Arith(old(State()), add) && State() == After(old(State()), o)
    {
      var f := Top();
      var top := bp + f.sp;
      if top < 2 || top > stack.Length {
        return Fault;
      }
      var a, b := stack[top - 2].GetInt(), stack[top - 1].GetInt();
      if a.None? || b.None? || f.sp == 0 {
        return Fault;
      }
      stack[top - 2] := Int(Wrap32(if add then a.value as int + b.value as int else a.value as int - b.value as int));
      f.sp := f.sp - 1;
      f.pc := f.pc + 1;
      o := Next(State());
    }

    method ExecIinc(index: nat, c: byte) returns (o: Outcome)
      requires Valid()
      modifies stack, Top()
      ensures Valid() && frameStack == old(frameStack) && stack == old(stack) && bp == old(bp)
      ensures Top().classRef == old(Top().classRef) && Top().methodInfo == old(Top().methodInfo)
      ensures Top().stack == old(Top().stack)
      ensures o == IincStep(old(State()), index, c) && State() == After(old(State()), o)
    {
      var f := Top();
      var slot := bp + index;
      if slot >= stack.Length {
        return Fault;
      }
      var v := Iinc(stack[slot], c);
      if v.None? {
        return Fault;
      }
      stack[slot] := v.value;
      f.pc := f.pc + 3;
      o := Next(State());
    }

    /** `goto`. */
    method ExecGoto(offset: int) returns (o: Outcome)
      requires Valid()
      modifies stack, Top()
      ensures Valid() && frameStack == old(frameStack) && stack == old(stack) && bp == old(bp)
      ensures Top().classRef == old(Top().classRef) && Top().methodInfo == old(Top().methodInfo)
      ensures Top().stack == old(Top().stack)
      ensures o == Jump(old(State()), offset, old(Top().sp)) && State() == After(old(State()), o)
    {
      var f := Top();
      if f.pc + offset < 0 {
        return Fault;
      }
      f.pc := f.pc + offset;
      o := Next(State());
    }

    method ExecIfEq(offset: int) returns (o: Outcome)
      requires Valid()
      modifies stack, Top()
      ensures Valid() && frameStack == old(frameStack) && stack == old(stack) && bp == old(bp)
      ensures Top().classRef == old(Top().classRef) && Top().methodInfo == old(Top().methodInfo)
      ensures Top().stack == old(Top().stack)
      ensures o == IfEq(old(State()), offset) && State() == After(old(State()), o)
    {
      var f := Top();
      var top := bp + f.sp;
      if top == 0 || top > stack.Length || f.sp == 0 {
        return Fault;
      }
      var v := stack[top - 1].GetInt();
      if v.None? {
        return Fault;
      }
      if v.value == 0 {
        if f.pc + offset < 0 {
          return Fault;
        }
        f.pc := f.pc + offset;
      } else {
        f.pc := f.pc + 3;
      }
      f.sp := f.sp - 1;
      o := Next(State());
    }

    /** `if_icmpge` and (greater) `if_icmpgt`. */
    method ExecIfCmp(offset: int, greater: bool) returns (o: Outcome)
      requires Valid()
      modifies stack, Top()
      ensures Valid() && frameStack == old(frameStack) && stack == old(stack) && bp == old(bp)
      ensures Top().classRef == old(Top().classRef) && Top().methodInfo == old(Top().methodInfo)
      ensures Top().stack == old(Top().stack)
      ensures o == IfCmp(old(State()), offset, greater) && State() == After(old(State()), o)
    {
      var f := Top();
      var top := bp + f.sp;
      if top < 2 || top > stack.Length {
        return Fault;
      }
      var val2, val1 := stack[top - 1].GetInt(), stack[top - 2].GetInt();
      if val1.None? || val2.None? || f.sp < 2 {
        return Fault;
      }
      if (if greater then val1.value > val2.value else val1.value >= val2.value) {
        if f.pc + offset < 0 {
          return Fault;
        }
        f.pc := f.pc + offset;
      } else {
        f.pc := f.pc + 3;
      }
      f.sp := f.sp - 2;
      o := Next(State());
    }

    method ExecIReturn() returns (o: Outcome)
      requires Valid()
      modifies stack, Top()
      ensures Valid() && frameStack == old(frameStack) && stack == old(stack) && bp == old(bp)
      ensures Top().classRef == old(Top().classRef) && Top().methodInfo == old(Top().methodInfo)
      ensures Top().stack == old(Top().stack)
      ensures o == IReturn(old(State())) && State() == After(old(State()), o)
    {
      var top := bp + Top().sp;
      if top == 0 || top > stack.Length || bp >= stack.Length {
        return Fault;
      }
      stack[bp] := stack[top - 1];
      o := Returned(IRETURN, State());
    }

    /** One iteration of the loop of `run` on code: the step function's
        outcome, and the machine it describes. */
    method Step(code: seq<byte>) returns (o: Outcome)
      requires Valid()
      modifies stack, Top()
      ensures Valid() && frameStack == old(frameStack) && stack == old(stack) && bp == old(bp)
      ensures Top().classRef == old(Top().classRef) && Top().methodInfo == old(Top().methodInfo)
      ensures Top().stack == old(Top().stack)
      ensures o == Bytecode.Step(code, old(State())) && State() == After(old(State()), o)
    {
      var pc := Top().pc;
      if pc >= |code| {
        return Fault;
      }
      var op := code[pc];
      if ICONST_M1 <= op <= ICONST_5 {
        o := ExecPush(Int(op as int - 3), 1);
      } else if op == BIPUSH || op == ILOAD || op == ISTORE {
        if pc + 1 >= |code| {
          return Fault;
        }
        var b := code[pc + 1];
        if op == BIPUSH {
          o := ExecPush(Char(SignedByte(b)), 2);
        } else if op == ILOAD {
          o := ExecLoad(b, 2);
        } else {
          o := ExecStore(b, 2);
        }
      } else if ILOAD_0 <= op <= ILOAD_3 {
        o := ExecLoad(op - ILOAD_0, 1);
      } else if ISTORE_0 <= op <= ISTORE_3 {
        o := ExecStore(op - ISTORE_0, 1);
      } else if op == POP || op == POP2 {
        o := ExecPop();
      } else if op == DUP {
        o := ExecDup();
      } else if op == IADD || op == ISUB {
        o := ExecArith(op == IADD);
      } else if op == SIPUSH || op == IINC || IsBranch(op) {
        o := StepWide(code, op);
      } else if op == IRETURN {
        o := ExecIReturn();
      } else if op == RETURN {
        o := Returned(RETURN, State());
      } else {
        o := Unsupported(op);
      }
    }

    /** The opcodes with two operand bytes: `sipush`, `iinc` and the branches. */
    method StepWide(code: seq<byte>, op: byte) returns (o: Outcome)
      requires Valid() && Top().pc < |code| && code[Top().pc] == op
      requires op == SIPUSH || op == IINC || IsBranch(op)
      modifies stack, Top()
      ensures Valid() && frameStack == old(frameStack) && stack == old(stack) && bp == old(bp)
      ensures Top().classRef == old(Top().classRef) && Top().methodInfo == old(Top().methodInfo)
      ensures Top().stack == old(Top().stack)
      ensures o == Bytecode.Step(code, old(State())) && State() == After(old(State()), o)
    {
      var pc := Top().pc;
      if pc + 2 >= |code| {
        return Fault;
      }
      var hi, lo := code[pc + 1], code[pc + 2];
      if op == SIPUSH {
        o := ExecPush(Short(Signed16(hi, lo)), 3);
      } else if op == IINC {
        o := ExecIinc(hi, lo);
      } else if op == GOTO {
        o := ExecGoto(Signed16(hi, lo));
      } else if op == IFEQ {
        o := ExecIfEq(Signed16(hi, lo));
      } else {
        o := ExecIfCmp(Signed16(hi, lo), op == IF_ICMPGT);
      }
    }

    /** `run` on the running frame, with at most `fuel` iterations of its
        loop (the source loops until a return). */
    method Run(fuel: nat) returns (r: RunResult)
      requires Valid()
      modifies stack, Top()
      ensures Valid() && frameStack == old(frameStack) && stack == old(stack) && bp == old(bp)
      ensures Top().classRef == old(Top().classRef) && Top().methodInfo == old(Top().methodInfo)
      ensures Top().stack == old(Top().stack)
      ensures r == RunMethod(old(Top().methodInfo), old(State()), fuel)
      ensures State() == EndState(r)
    {
      var mi := Top().methodInfo;
      if mi.CheckAccessFlags(ACC_NATIVE) {
        return Native(State());
      }
      var code := CodeOf(mi);
      if code.None? {
        return Crashed(State());
      }
      ghost var m0 := State();
      var k := fuel;
      while k > 0
        invariant Valid() && frameStack == old(frameStack) && stack == old(stack) && bp == old(bp)
        invariant Top().classRef == old(Top().classRef) && Top().methodInfo == mi
        invariant Top().stack == old(Top().stack)
        invariant Steps(code.value, m0, fuel) == Steps(code.value, State(), k)
        decreases k
      {
        ghost var m := State();
        var o := Step(code.value);
        match o
        case Next(_) =>
          k := k - 1;
        case Returned(op, _) =>
          return Finished(op, State());
        case Fault =>
          return Crashed(State());
        case Unsupported(op) =>
          return Stopped(op, State());
      }
      r := OutOfFuel(State());
    }

    /** The callee's half of `run_invoke_static`: push the prepared frame
        `f`, move `bp` to the callee's base, run the callee, then undo both. */
    method RunCallee(f: Frame, calleeBp: nat, fuel: nat) returns (res: RunResult)
      requires Valid()
      modifies this, stack, f
      ensures Valid() && frameStack == old(frameStack) && stack == old(stack) && bp == old(bp)
      ensures res == RunMethod(old(f.methodInfo), Machine(old(stack[..]), calleeBp, old(f.pc), old(f.sp)), fuel)
      ensures stack[..] == EndState(res).stack
    {
      var callerBp := bp;
      frameStack := frameStack + [f];
      bp := calleeBp;
      res := Run(fuel);
      bp := callerBp;
      frameStack := frameStack[..|frameStack| - 1];
    }

    /** `run_invoke_static` together with the `pc += 3` of the invoking arm
        of `run`. The callee's resolution is the parameter `callee` with its
        class `calleeClass`; its execution is `Run` with at most `fuel`
        steps. `None` where the source panics before the callee runs. */
    method InvokeStatic(isStatic: bool, descriptor: string, callee: MethodInfo, calleeClass: nat, fuel: nat)
      returns (r: Option<RunResult>)
      requires Valid()
      modifies this, stack, Top()
      ensures Valid() && frameStack == old(frameStack) && stack == old(stack)
      ensures r.Some? <==> Layout(isStatic, descriptor, callee, old(bp), old(Top().sp)).Some?
      ensures r.None? ==> bp == old(bp) && stack[..] == old(stack[..]) &&
                          Top().pc == old(Top().pc) && Top().sp == old(Top().sp)
      ensures r.Some? ==>
                var l := Layout(isStatic, descriptor, callee, old(bp), old(Top().sp)).value;
                r.value == RunMethod(callee, Machine(old(stack[..]), l.calleeBp, 0, l.calleeSp), fuel) &&
                stack[..] == EndState(r.value).stack &&
                bp == old(bp) && Top().sp == l.callerSp && Top().pc == old(Top().pc) + 3
      ensures Top().classRef == old(Top().classRef) && Top().methodInfo == old(Top().methodInfo)
      ensures Top().stack == old(Top().stack)
    {
      var caller := Top();
      var l := PrepareCall(isStatic, descriptor, callee, bp, caller.sp);
      if l.None? {
        return None;
      }
      var f := new Frame();
      f.methodInfo := callee;
      f.classRef := Some(calleeClass);
      f.sp := l.value.calleeSp;
      var res := RunCallee(f, l.value.calleeBp, fuel);
      caller.sp := l.value.callerSp;
      caller.pc := caller.pc + 3;
      r := Some(res);
    }
  }
}
