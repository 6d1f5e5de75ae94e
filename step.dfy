/** The integer subset of the interpreter loop `VM::run`, as a step relation
    on the operand/local stack, the base pointer `bp` and the current
    frame's `pc` and `sp`. Every panic of the source (an index outside the
    code or the stack, a `usize` underflow, `get_int` on a non-integer) is
    `Fault`. The address of a slot is computed as the source writes it:
    `bp + sp - k` is `(bp + sp) - k`, which underflows only when `bp + sp < k`. */
module Bytecode {
  import opened Base
  import opened Frames
  import opened Format

  const ICONST_M1: byte := 2
  const ICONST_5: byte := 8
  const BIPUSH: byte := 16
  const SIPUSH: byte := 17
  const ILOAD: byte := 21
  const ILOAD_0: byte := 26
  const ILOAD_3: byte := 29
  const ISTORE: byte := 54
  const ISTORE_0: byte := 59
  const ISTORE_3: byte := 62
  const POP: byte := 87
  const POP2: byte := 88
  const DUP: byte := 89
  const IADD: byte := 96
  const ISUB: byte := 100
  const IINC: byte := 132
  const IFEQ: byte := 153
  const IF_ICMPGE: byte := 162
  const IF_ICMPGT: byte := 163
  const GOTO: byte := 167
  const IRETURN: byte := 172
  const RETURN: byte := 177

  /** What one step sees and changes: the whole stack, `bp`, and the `pc`
      and `sp` of the running frame. */
  datatype Machine = Machine(stack: seq<Variable>, bp: nat, pc: nat, sp: nat)

  datatype Outcome =
    | Next(next: Machine)
    | Returned(opcode: byte, final: Machine)
    | Fault
    | Unsupported(op: byte)

  /** `((hi as i16) << 8) + lo as i16`: the big-endian signed 16-bit operand
      of `sipush` and of the branches. */
  function Signed16(hi: byte, lo: byte): (r: i16)
    ensures (r - BE16(hi, lo)) % 0x1_0000 == 0
    ensures r < 0 <==> hi >= 0x80
  {
    Wrap16(BE16(hi, lo))
  }

  // The instruction families, each on the machine before the step.

  /** Writes v at `bp + sp`, one slot above the top. */
  function Push(m: Machine, v: Variable, len: nat): (o: Outcome)
    ensures o.Fault? <==> m.bp + m.sp >= |m.stack|
  {
    var dst := m.bp + m.sp;
    if dst >= |m.stack| then Fault
    else Next(Machine(m.stack[dst := v], m.bp, m.pc + len, m.sp + 1))
  }

  /** `iload`: copies local `bp + index` to the slot above the top. */
  function Load(m: Machine, index: nat, len: nat): (o: Outcome)
    ensures o.Fault? <==> m.bp + index >= |m.stack| || m.bp + m.sp >= |m.stack|
  {
    var src, dst := m.bp + index, m.bp + m.sp;
    if src >= |m.stack| || dst >= |m.stack| then Fault
    else Next(Machine(m.stack[dst := m.stack[src]], m.bp, m.pc + len, m.sp + 1))
  }

  /** `istore`: copies the top to local `bp + index` and pops it. */
  function Store(m: Machine, index: nat, len: nat): (o: Outcome)
    ensures o.Fault? <==> m.sp == 0 || m.bp + m.sp > |m.stack| || m.bp + index >= |m.stack|
  {
    if m.sp == 0 || m.bp + m.sp > |m.stack| || m.bp + index >= |m.stack| then Fault
    else
      var src := m.bp + m.sp - 1;
      Next(Machine(m.stack[m.bp + index := m.stack[src]], m.bp, m.pc + len, m.sp - 1))
  }

  function Pop(m: Machine): (o: Outcome)
    ensures o.Fault? <==> m.sp == 0
  {
    if m.sp == 0 then Fault else Next(m.(pc := m.pc + 1, sp := m.sp - 1))
  }

  /** `dup`: copies slot `bp + sp - 1` to `bp + sp`. */
  function Dup(m: Machine): (o: Outcome)
    ensures o.Fault? <==> m.bp + m.sp == 0 || m.bp + m.sp >= |m.stack|
  {
    var top := m.bp + m.sp;
    if top == 0 || top >= |m.stack| then Fault
    else Next(Machine(m.stack[top := m.stack[top - 1]], m.bp, m.pc + 1, m.sp + 1))
  }

  /** The two integers at `bp + sp - 2` (val1) and `bp + sp - 1` (val2). */
  function Operands(m: Machine): (r: Option<(i32, i32)>)
    ensures r.Some? <==> 2 <= m.bp + m.sp <= |m.stack| &&
                         m.stack[m.bp + m.sp - 2].IsIntLike() && m.stack[m.bp + m.sp - 1].IsIntLike()
    ensures r.Some? ==> r.value == (m.stack[m.bp + m.sp - 2].GetInt().value, m.stack[m.bp + m.sp - 1].GetInt().value)
  {
    var top := m.bp + m.sp;
    if top < 2 || top > |m.stack| then None
    else
      match (m.stack[top - 2].GetInt(), m.stack[top - 1].GetInt())
      case (Some(a), Some(b)) => Some((a, b))
      case _ => None
  }

  /** `iadd` and `isub`: `val1 op val2` in 32-bit wrapping arithmetic, stored
      at `bp + sp - 2`; `sp` drops by one. */
  function Arith(m: Machine, add: bool): (o: Outcome)
    ensures o.Fault? <==> Operands(m).None? || m.sp == 0
  {
    match Operands(m)
    case None => Fault
    case Some((a, b)) =>
      if m.sp == 0 then Fault
      else
        var v := Int(Wrap32(if add then a + b else a - b));
        Next(Machine(m.stack[m.bp + m.sp - 2 := v], m.bp, m.pc + 1, m.sp - 1))
  }

  /** A jump by a signed offset from the branch instruction's own address. A
      target below 0 wraps to a huge `usize` in the source, whose next fetch
      panics; here it is a fault at once. */
  function Jump(m: Machine, offset: int, sp: nat): (o: Outcome)
    ensures o.Fault? <==> m.pc + offset < 0
  {
    if m.pc + offset < 0 then Fault else Next(m.(pc := m.pc + offset, sp := sp))
  }

  /** `ifeq`: pops one integer and jumps when it is zero. */
  function IfEq(m: Machine, offset: int): (o: Outcome)
  {
    var top := m.bp + m.sp;
    if top == 0 || top > |m.stack| || m.sp == 0 then Fault
    else
      match m.stack[top - 1].GetInt()
      case None => Fault
      case Some(v) =>
        if v == 0 then Jump(m, offset, m.sp - 1) else Next(m.(pc := m.pc + 3, sp := m.sp - 1))
  }

  /** `if_icmpge` (`greater` false) and `if_icmpgt` (`greater` true): pops
      two integers and jumps when val1 >= val2, respectively val1 > val2. */
  function IfCmp(m: Machine, offset: int, greater: bool): (o: Outcome)
  {
    match Operands(m)
    case None => Fault
    case Some((a, b)) =>
      if m.sp < 2 then Fault
      else if (if greater then a > b else a >= b) then Jump(m, offset, m.sp - 2)
      else Next(m.(pc := m.pc + 3, sp := m.sp - 2))
  }

  /** `ireturn`: the top is copied to slot `bp`, where the caller finds it. */
  function IReturn(m: Machine): (o: Outcome)
    ensures o.Fault? <==> m.bp + m.sp == 0 || m.bp + m.sp > |m.stack| || m.bp >= |m.stack|
  {
    var top := m.bp + m.sp;
    if top == 0 || top > |m.stack| || m.bp >= |m.stack| then Fault
    else Returned(IRETURN, m.(stack := m.stack[m.bp := m.stack[top - 1]]))
  }

  // iinc.

  /** `iinc` as the source writes it: the constant byte is added as `i8` to a
      `Char`, but zero-extended (`u8 as i16`, `u8 as i32`) for `Short` and
      `Int`, and each sum wraps at the width of its variant. */
  function IincAsWritten(v: Variable, c: byte): (r: Option<Variable>)
    ensures r.Some? <==> v.IsIntLike()
  {
    match v
    case Char(n) => Some(Char(Wrap8(n + SignedByte(c))))
    case Short(n) => Some(Short(Wrap16(n + c)))
    case Int(n) => Some(Int(Wrap32(n + c)))
    case _ => None
  }

  /** `iinc` as section 6.5 of The Java Virtual Machine Specification defines
      it: the local's int value plus the constant read as a signed byte, in
      32-bit wrapping arithmetic. */
  function Iinc(v: Variable, c: byte): (r: Option<Variable>)
    ensures r.Some? <==> v.IsIntLike()
    ensures r.Some? ==> r.value.Int? && r.value.GetInt() == Some(Wrap32(v.GetInt().value + SignedByte(c)))
  {
    match v.GetInt()
    case None => None
    case Some(n) => Some(Int(Wrap32(n + SignedByte(c))))
  }

  /** `iinc -1` on an `Int` local adds 255 in the source. */
  lemma IincAsWrittenZeroExtends()
    ensures IincAsWritten(Int(5), 0xFF) == Some(Int(260))
    ensures Iinc(Int(5), 0xFF) == Some(Int(4))
  {
  }

  /** A local that `bipush` filled is a `Char`: incrementing 127 wraps to -128
      in the source, where the int 128 is meant. */
  lemma IincAsWrittenWrapsChar()
    ensures IincAsWritten(Char(127), 1) == Some(Char(-128))
    ensures Iinc(Char(127), 1) == Some(Int(128))
  {
  }

  /** The two agree whenever the constant is non-negative and the sum fits
      the variant: only negative constants and narrow overflow differ. */
  lemma IincAgreesOnSmallSteps(v: Variable, c: byte)
    requires v.IsIntLike() && c < 0x80
    requires v.Char? ==> v.c + c < 0x80
    requires v.Short? ==> v.s + c < 0x8000
    requires v.Int? ==> v.i + c < 0x8000_0000
    ensures IincAsWritten(v, c).value.GetInt() == Iinc(v, c).value.GetInt()
  {
  }

  function IincStep(m: Machine, index: nat, c: byte): (o: Outcome)
    ensures o.Fault? <==> m.bp + index >= |m.stack| || !m.stack[m.bp + index].IsIntLike()
  {
    var slot := m.bp + index;
    if slot >= |m.stack| then Fault
    else
      match Iinc(m.stack[slot], c)
      case None => Fault
      case Some(v) => Next(m.(stack := m.stack[slot := v], pc := m.pc + 3))
  }

  // The step.

  /** The operand byte at `pc + k`, if the code has one there. */
  function Operand(code: seq<byte>, pc: nat, k: nat): (r: Option<byte>)
    ensures r.Some? <==> pc + k < |code|
    ensures r.Some? ==> r.value == code[pc + k]
  {
    if pc + k < |code| then Some(code[pc + k]) else None
  }

  /** The two-byte signed operand after the opcode. */
  function Offset(code: seq<byte>, pc: nat): (r: Option<i16>)
    ensures r.Some? <==> pc + 2 < |code|
    ensures r.Some? ==> r.value == Signed16(code[pc + 1], code[pc + 2])
  {
    if pc + 2 < |code| then Some(Signed16(code[pc + 1], code[pc + 2])) else None
  }

  /** One iteration of the loop in `VM::run` for the integer opcodes; every
      other opcode is `Unsupported`. */
  function Step(code: seq<byte>, m: Machine): (o: Outcome)
  {
    if m.pc >= |code| then Fault
    else
      var op := code[m.pc];
      if ICONST_M1 <= op <= ICONST_5 then Push(m, Int(op as int - 3), 1)
      else if op == BIPUSH then
        match Operand(code, m.pc, 1)
        case None => Fault
        case Some(b) => Push(m, Char(SignedByte(b)), 2)
      else if op == SIPUSH then
        match Offset(code, m.pc)
        case None => Fault
        case Some(v) => Push(m, Short(v), 3)
      else if op == ILOAD then
        match Operand(code, m.pc, 1)
        case None => Fault
        case Some(index) => Load(m, index, 2)
      else if ILOAD_0 <= op <= ILOAD_3 then Load(m, op - ILOAD_0, 1)
      else if op == ISTORE then
        match Operand(code, m.pc, 1)
        case None => Fault
        case Some(index) => Store(m, index, 2)
      else if ISTORE_0 <= op <= ISTORE_3 then Store(m, op - ISTORE_0, 1)
      else if op == POP || op == POP2 then Pop(m)
      else if op == DUP then Dup(m)
      else if op == IADD || op == ISUB then Arith(m, op == IADD)
      else if op == IINC then
        match (Operand(code, m.pc, 1), Operand(code, m.pc, 2))
        case (Some(index), Some(c)) => IincStep(m, index, c)
        case _ => Fault
      else if op == GOTO then
        match Offset(code, m.pc)
        case None => Fault
        case Some(off) => Jump(m, off, m.sp)
      else if op == IFEQ then
        match Offset(code, m.pc)
        case None => Fault
        case Some(off) => IfEq(m, off)
      else if op == IF_ICMPGE || op == IF_ICMPGT then
        match Offset(code, m.pc)
        case None => Fault
        case Some(off) => IfCmp(m, off, op == IF_ICMPGT)
      else if op == IRETURN then IReturn(m)
      else if op == RETURN then Returned(RETURN, m)
      else Unsupported(op)
  }

  // Reference tables, as the instruction set lists them.

  predicate IsBranch(op: byte) { op == GOTO || op == IFEQ || op == IF_ICMPGE || op == IF_ICMPGT }

  /** The opcodes this model executes. */
  predicate Supported(op: byte)
  {
    ICONST_M1 <= op <= ICONST_5 || op == BIPUSH || op == SIPUSH || op == ILOAD ||
    ILOAD_0 <= op <= ILOAD_3 || op == ISTORE || ISTORE_0 <= op <= ISTORE_3 ||
    op == POP || op == POP2 || op == DUP || op == IADD || op == ISUB || op == IINC ||
    IsBranch(op) || op == IRETURN || op == RETURN
  }

  /** How many operand-stack slots an instruction pushes (positive) or pops
      (negative). */
  function StackEffect(op: byte): int
  {
    if ICONST_M1 <= op <= ICONST_5 || op == BIPUSH || op == SIPUSH || op == ILOAD ||
       ILOAD_0 <= op <= ILOAD_3 || op == DUP then 1
    else if op == ISTORE || ISTORE_0 <= op <= ISTORE_3 || op == POP || op == POP2 ||
            op == IADD || op == ISUB || op == IFEQ then -1
    else if op == IF_ICMPGE || op == IF_ICMPGT then -2
    else 0
  }

  /** The length of an instruction with its operands. */
  function InstrLength(op: byte): nat
  {
    if op == BIPUSH || op == ILOAD || op == ISTORE then 2
    else if op == SIPUSH || op == IINC || IsBranch(op) then 3
    else 1
  }

  /** The one stack slot an instruction may write, or -1 when it writes none. */
  function WrittenSlot(code: seq<byte>, m: Machine): int
    requires m.pc < |code|
  {
    var op := code[m.pc];
    if ICONST_M1 <= op <= ICONST_5 || op == BIPUSH || op == SIPUSH || op == ILOAD ||
       ILOAD_0 <= op <= ILOAD_3 || op == DUP then m.bp + m.sp
    else if op == ISTORE then (if m.pc + 1 < |code| then m.bp + code[m.pc + 1] else -1)
    else if ISTORE_0 <= op <= ISTORE_3 then m.bp + (op - ISTORE_0)
    else if op == IADD || op == ISUB then m.bp + m.sp - 2
    else if op == IINC then (if m.pc + 1 < |code| then m.bp + code[m.pc + 1] else -1)
    else -1
  }

  /** A step that continues executes a supported opcode, moves `sp` by the
      opcode's stack effect, keeps `bp` and the stack size, and moves `pc` past
      the instruction, or for a branch either past it or by its offset. */
  lemma StepShape(code: seq<byte>, m: Machine)
    requires Step(code, m).Next?
    ensures m.pc < |code| && Supported(code[m.pc])
    ensures var n, op := Step(code, m).next, code[m.pc];
            n.sp == m.sp + StackEffect(op) && n.bp == m.bp && |n.stack| == |m.stack| &&
            (!IsBranch(op) ==> n.pc == m.pc + InstrLength(op)) &&
            (IsBranch(op) ==> n.pc == m.pc + 3 || n.pc == m.pc + Offset(code, m.pc).value)
  {
  }

  /** A step changes at most the slot its opcode writes. */
  lemma StepWritesOneSlot(code: seq<byte>, m: Machine)
    requires Step(code, m).Next?
    ensures m.pc < |code|
    ensures forall i :: 0 <= i < |m.stack| && i != WrittenSlot(code, m) ==>
              Step(code, m).next.stack[i] == m.stack[i]
  {
  }

  /** A step that does not continue either returns on `ireturn`/`return`,
      faults, or meets an opcode outside the integer subset. */
  lemma StepReturnsOnlyOnReturn(code: seq<byte>, m: Machine)
    ensures Step(code, m).Returned? <==>
              m.pc < |code| && (code[m.pc] == RETURN || (code[m.pc] == IRETURN && IReturn(m).Returned?))
    ensures Step(code, m).Unsupported? <==> m.pc < |code| && !Supported(code[m.pc])
  {
  }

  // The opcodes one by one.

  /** `iconst_<k>` writes `Int(k)`, k in -1..5, at `bp + sp`. */
  lemma IconstStep(code: seq<byte>, m: Machine)
    requires m.pc < |code| && ICONST_M1 <= code[m.pc] <= ICONST_5
    ensures Step(code, m).Fault? <==> m.bp + m.sp >= |m.stack|
    ensures Step(code, m).Next? ==>
              var n := Step(code, m).next;
              var k := code[m.pc] as int - 3;
              -1 <= k <= 5 && n.stack[m.bp + m.sp] == Int(k) && n.sp == m.sp + 1 && n.pc == m.pc + 1
  {
  }

  /** `bipush` pushes its operand sign-extended; `sipush` pushes its two
      operand bytes as a big-endian signed 16-bit value. */
  lemma PushConstantStep(code: seq<byte>, m: Machine)
    requires m.pc + 1 < |code| && (code[m.pc] == BIPUSH || code[m.pc] == SIPUSH)
    requires code[m.pc] == SIPUSH ==> m.pc + 2 < |code|
    requires m.bp + m.sp < |m.stack|
    ensures Step(code, m).Next?
    ensures var n := Step(code, m).next;
            var top := n.stack[m.bp + m.sp].GetInt();
            (code[m.pc] == BIPUSH ==> top == Some(SignedByte(code[m.pc + 1]) as i32) && n.pc == m.pc + 2) &&
            (code[m.pc] == SIPUSH ==>
               top == Some(if code[m.pc + 1] < 0x80 then BE16(code[m.pc + 1], code[m.pc + 2])
                           else BE16(code[m.pc + 1], code[m.pc + 2]) - 0x1_0000) &&
               n.pc == m.pc + 3)
  {
  }

  /** `iload_<n>` and `iload <index>` copy local `bp + n` (`bp + index`) to
      the top; `istore_<n>` and `istore <index>` copy the top to that local and
      pop it. The short forms take one byte, the indexed forms two. */
  lemma LoadStoreStep(code: seq<byte>, m: Machine)
    requires m.pc < |code|
    requires ILOAD_0 <= code[m.pc] <= ILOAD_3 || ISTORE_0 <= code[m.pc] <= ISTORE_3 ||
             code[m.pc] == ILOAD || code[m.pc] == ISTORE
    ensures Step(code, m).Next? ==>
              var op := code[m.pc];
              var n := Step(code, m).next;
              (ILOAD_0 <= op <= ILOAD_3 ==>
                 n.pc == m.pc + 1 && n.sp == m.sp + 1 &&
                 n.stack[m.bp + m.sp] == m.stack[m.bp + (op - ILOAD_0)]) &&
              (ISTORE_0 <= op <= ISTORE_3 ==>
                 n.pc == m.pc + 1 && n.sp == m.sp - 1 &&
                 n.stack[m.bp + (op - ISTORE_0)] == m.stack[m.bp + m.sp - 1]) &&
              (op == ILOAD ==>
                 m.pc + 1 < |code| && n.pc == m.pc + 2 && n.sp == m.sp + 1 &&
                 n.stack[m.bp + m.sp] == m.stack[m.bp + code[m.pc + 1]]) &&
              (op == ISTORE ==>
                 m.pc + 1 < |code| && n.pc == m.pc + 2 && n.sp == m.sp - 1 &&
                 n.stack[m.bp + code[m.pc + 1]] == m.stack[m.bp + m.sp - 1])
  {
  }

  /** `iadd`/`isub` store val1 + val2, respectively val1 - val2, wrapped to 32
      bits, where val2 is the top; the result replaces val1. */
  lemma ArithStep(code: seq<byte>, m: Machine, a: i32, b: i32)
    requires m.pc < |code| && (code[m.pc] == IADD || code[m.pc] == ISUB)
    requires m.sp >= 2 && m.bp + m.sp <= |m.stack|
    requires m.stack[m.bp + m.sp - 2].GetInt() == Some(a) && m.stack[m.bp + m.sp - 1].GetInt() == Some(b)
    ensures Step(code, m).Next?
    ensures var n := Step(code, m).next;
            n.stack[m.bp + m.sp - 2] == Int(Wrap32(if code[m.pc] == IADD then a + b else a - b)) &&
            n.sp == m.sp - 1 && n.pc == m.pc + 1
  {
  }

  /** `iinc` changes only local `bp + index`, keeps `sp` and moves `pc` by 3. */
  lemma IincOnlyTouchesLocal(code: seq<byte>, m: Machine)
    requires m.pc + 2 < |code| && code[m.pc] == IINC
    ensures Step(code, m).Next? ==>
              var n := Step(code, m).next;
              var slot := m.bp + code[m.pc + 1];
              n.sp == m.sp && n.pc == m.pc + 3 && |n.stack| == |m.stack| &&
              n.stack[slot] == Iinc(m.stack[slot], code[m.pc + 2]).value &&
              forall i :: 0 <= i < |m.stack| && i != slot ==> n.stack[i] == m.stack[i]
  {
  }

  /** The branches: `goto` always jumps; `ifeq` pops one value and jumps when
      it is 0; `if_icmpge`/`if_icmpgt` pop two and jump when val1 >= val2,
      respectively val1 > val2. A branch not taken moves `pc` by 3. */
  lemma BranchStep(code: seq<byte>, m: Machine)
    requires m.pc + 2 < |code| && IsBranch(code[m.pc])
    requires Step(code, m).Next?
    ensures var n, op, off := Step(code, m).next, code[m.pc], Signed16(code[m.pc + 1], code[m.pc + 2]);
            var taken := if op == GOTO then true
                         else if op == IFEQ then m.stack[m.bp + m.sp - 1].GetInt() == Some(0)
                         else if op == IF_ICMPGE then Operands(m).value.0 >= Operands(m).value.1
                         else Operands(m).value.0 > Operands(m).value.1;
            n.stack == m.stack &&
            (taken ==> n.pc == m.pc + off) && (!taken ==> n.pc == m.pc + 3) &&
            n.sp == m.sp + StackEffect(op)
  {
    var op := code[m.pc];
    if op == GOTO {
    } else if op == IFEQ {
    } else if op == IF_ICMPGE {
    } else {
      assert op == IF_ICMPGT;
    }
  }

  /** `ireturn` leaves the top in slot `bp`; `return` leaves the machine alone. */
  lemma ReturnStep(code: seq<byte>, m: Machine)
    requires m.pc < |code| && (code[m.pc] == IRETURN || code[m.pc] == RETURN)
    requires m.sp >= 1 && m.bp + m.sp <= |m.stack|
    ensures Step(code, m).Returned? && Step(code, m).opcode == code[m.pc]
    ensures code[m.pc] == RETURN ==> Step(code, m).final == m
    ensures code[m.pc] == IRETURN ==>
              Step(code, m).final == m.(stack := m.stack[m.bp := m.stack[m.bp + m.sp - 1]])
  {
  }

  // Running.

  datatype RunResult =
    | Finished(opcode: byte, final: Machine)
    | Crashed(at: Machine)
    | Stopped(op: byte, at: Machine)
    | OutOfFuel(last: Machine)
    | Native(at: Machine)

  /** The machine a run left behind. */
  function EndState(r: RunResult): Machine
  {
    match r
    case Finished(_, f) => f
    case Crashed(m) => m
    case Stopped(_, m) => m
    case OutOfFuel(m) => m
    case Native(m) => m
  }

  /** At most `fuel` steps of the interpreter loop from m. */
  function Steps(code: seq<byte>, m: Machine, fuel: nat): (r: RunResult)
    decreases fuel
  {
    if fuel == 0 then OutOfFuel(m)
    else
      match Step(code, m)
      case Next(n) => Steps(code, n, fuel - 1)
      case Returned(op, f) => Finished(op, f)
      case Fault => Crashed(m)
      case Unsupported(op) => Stopped(op, m)
  }

  /** A run that ended within some fuel ends the same way with more. */
  lemma {:induction false} StepsMoreFuel(code: seq<byte>, m: Machine, fuel: nat, more: nat)
    requires !Steps(code, m, fuel).OutOfFuel?
    ensures Steps(code, m, fuel + more) == Steps(code, m, fuel)
    decreases fuel
  {
    if fuel > 0 && Step(code, m).Next? {
      StepsMoreFuel(code, Step(code, m).next, fuel - 1, more);
    }
  }

  /** What running `g` more steps after the run `r` gives: `r` itself
      unless it ran out of fuel. */
  function Resume(code: seq<byte>, r: RunResult, g: nat): RunResult
  {
    if r.OutOfFuel? then Steps(code, r.last, g) else r
  }

  /** Fuel splits: running f + g steps is running f steps and then g more. */
  lemma {:induction false} StepsSplit(code: seq<byte>, m: Machine, f: nat, g: nat)
    ensures Steps(code, m, f + g) == Resume(code, Steps(code, m, f), g)
    decreases f
  {
    if f > 0 {
      var o := Step(code, m);
      if o.Next? {
        StepsSplit(code, o.next, f - 1, g);
        assert Steps(code, m, f + g) == Steps(code, o.next, f - 1 + g);
        assert Steps(code, m, f) == Steps(code, o.next, f - 1);
      }
    }
  }

  /** The code of `static int f() { return 2 + 3; }` returns the int 5 in
      slot `bp`. */
  lemma AddConstantsReturnsFive(m: Machine)
    requires m.pc == 0 && m.bp + m.sp + 2 <= |m.stack|
    ensures var r := Steps([ICONST_M1 + 3, ICONST_M1 + 4, IADD, IRETURN], m, 4);
            r.Finished? && r.opcode == IRETURN && r.final.stack[m.bp] == Int(5)
  {
    var code := [ICONST_M1 + 3, ICONST_M1 + 4, IADD, IRETURN];
    var m1 := Step(code, m).next;
    var m2 := Step(code, m1).next;
    var m3 := Step(code, m2).next;
    assert m3.stack[m.bp + m.sp] == Int(5) && m3.sp == m.sp + 1 && m3.pc == 3;
  }
}
