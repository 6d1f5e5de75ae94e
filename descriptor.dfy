/** Counting the operand-stack slots that an invocation passes to its callee,
    from the callee's method descriptor (section 4.3.3 of The Java Virtual
    Machine Specification, Java SE 8 Edition), the way `run_invoke_static`
    counts them: one slot per descriptor character between `(` and `)`,
    where a class name `L…;` is one character. `J` and `D` take one slot
    (the source leaves "long/double takes 2" as a to-do), and an array
    marker `[` is a character of its own, so an array parameter takes one
    slot more than its element type. */
module Descriptors {
  import opened Base

  /** The index of the first `;` in s, if there is one. */
  function Semicolon(s: string): (r: Option<nat>)
    ensures r.Some? ==> r.value < |s| && s[r.value] == ';'
  {
    if s == [] then None
    else if s[0] == ';' then Some(0)
    else match Semicolon(s[1..])
      case None => None
      case Some(k) => Some(k + 1)
  }

  function Plus1(o: Option<nat>): (r: Option<nat>)
  {
    match o
    case None => None
    case Some(n) => Some(n + 1)
  }

  /** The slots counted from the start of s up to the closing `)` or the end;
      `None` where the source panics, a class name that has no `;`. */
  function SlotsIn(s: string): (r: Option<nat>)
    decreases |s|
  {
    if s == [] || s[0] == ')' then Some(0)
    else if s[0] == 'L' then
      match Semicolon(s)
      case None => None
      case Some(k) => Plus1(SlotsIn(s[k + 1..]))
    else Plus1(SlotsIn(s[1..]))
  }

  /** `params_num` of `run_invoke_static`: the count starts after the opening
      `(`; a receiver adds one slot unless the call is `invokestatic`. */
  function ParamSlots(descriptor: string, isStatic: bool): (r: Option<nat>)
  {
    var count := if descriptor == [] then Some(0) else SlotsIn(descriptor[1..]);
    if isStatic then count else Plus1(count)
  }

  /** Whether the invoked method leaves a value for its caller: its
      descriptor does not end in `)V`. */
  predicate ReturnsValue(descriptor: string)
  {
    !(|descriptor| >= 2 && descriptor[|descriptor| - 2..] == ")V")
  }

  /** What one pass of the counter's loop body finds at index i. */
  datatype Token = Close | Counted(next: nat) | Panic

  /** The descriptor counter of `run_invoke_static`. */
  method ParamsNum(descriptor: string, isStatic: bool) returns (r: Option<nat>)
    ensures r == ParamSlots(descriptor, isStatic)
  {
    var count := 0;
    var i := 1;
    while i < |descriptor|
      invariant descriptor != [] ==> 1 <= i <= |descriptor|
      invariant descriptor == [] ==> count == 0
      invariant descriptor != [] ==> SlotsIn(descriptor[1..]) == Plus1Times(SlotsIn(descriptor[i..]), count)
      decreases |descriptor| - i
    {
      var t := CountOne(descriptor, i);
      match t
      case Panic => return None;
      case Close => break;
      case Counted(next) =>
        count := count + 1;
        i := next;
    }
    if descriptor != [] && i >= |descriptor| {
      assert descriptor[i..] == [];
    }
    r := if isStatic then Some(count) else Some(count + 1);
  }

  /** One pass of the counter's loop body at index i: a class name is
      skipped to its `;`, a `)` ends the count, and anything else is one
      slot. */
  method CountOne(d: string, i: nat) returns (t: Token)
    requires i < |d|
    ensures t.Close? <==> d[i] == ')'
    ensures t.Close? ==> SlotsIn(d[i..]) == Some(0)
    ensures t.Counted? ==> i < t.next <= |d| && SlotsIn(d[i..]) == Plus1(SlotsIn(d[t.next..]))
    ensures t.Panic? ==> SlotsIn(d[i..]) == None
  {
    var k := i;
    if d[k] == 'L' {
      var j := SkipClassName(d, k);
      if j.None? {
        return Panic;
      }
      k := j.value;
    }
    if d[k] == ')' {
      SlotsClose(d, k);
      return Close;
    }
    if k == i {
      SlotsOne(d, i);
    }
    t := Counted(k + 1);
  }

  /** The inner loop of the counter: from the `L` at i to the `;` that ends
      the class name; `None` where the scan runs off the end and panics. */
  method SkipClassName(d: string, i: nat) returns (j: Option<nat>)
    requires i < |d| && d[i] == 'L'
    ensures j.None? <==> SlotsIn(d[i..]).None? && forall k :: i <= k < |d| ==> d[k] != ';'
    ensures j.Some? ==> i < j.value < |d| && d[j.value] == ';' &&
                        SlotsIn(d[i..]) == Plus1(SlotsIn(d[j.value + 1..]))
  {
    var k := i;
    while d[k] != ';'
      invariant i <= k < |d|
      invariant forall m :: i <= m < k ==> d[m] != ';'
      decreases |d| - k
    {
      k := k + 1;
      if k == |d| {
        NoSemicolon(d, i);
        return None;
      }
    }
    FoundSemicolon(d, i, k);
    j := Some(k);
  }

  /** o with n added to its count. */
  function Plus1Times(o: Option<nat>, n: nat): Option<nat>
  {
    match o
    case None => None
    case Some(c) => Some(c + n)
  }

  lemma SlotsClose(d: string, i: nat)
    requires i < |d| && d[i] == ')'
    ensures SlotsIn(d[i..]) == Some(0)
  {
  }

  lemma SlotsOne(d: string, i: nat)
    requires i < |d| && d[i] != ')' && d[i] != 'L'
    ensures SlotsIn(d[i..]) == Plus1(SlotsIn(d[i + 1..]))
  {
    assert d[i..][1..] == d[i + 1..];
  }

  lemma {:induction false} NoSemicolonIn(s: string)
    requires forall k :: 0 <= k < |s| ==> s[k] != ';'
    ensures Semicolon(s) == None
  {
    if s != [] {
      assert forall k :: 0 <= k < |s[1..]| ==> s[1..][k] == s[k + 1];
      NoSemicolonIn(s[1..]);
    }
  }

  lemma NoSemicolon(d: string, start: nat)
    requires start < |d| && d[start] == 'L'
    requires forall k :: start <= k < |d| ==> d[k] != ';'
    ensures SlotsIn(d[start..]) == None
  {
    assert forall k :: 0 <= k < |d[start..]| ==> d[start..][k] == d[start + k];
    NoSemicolonIn(d[start..]);
  }

  /** The first `;` of s is at j. */
  lemma {:induction false} FirstSemicolon(s: string, j: nat)
    requires j < |s| && s[j] == ';'
    requires forall k :: 0 <= k < j ==> s[k] != ';'
    ensures Semicolon(s) == Some(j)
  {
    if j > 0 {
      assert forall k :: 0 <= k < j - 1 ==> s[1..][k] == s[k + 1];
      FirstSemicolon(s[1..], j - 1);
    }
  }

  /** The first `;` at or after `start` is at `i`. */
  lemma SemicolonAt(d: string, start: nat, i: nat)
    requires start <= i < |d| && d[i] == ';'
    requires forall k :: start <= k < i ==> d[k] != ';'
    ensures Semicolon(d[start..]) == Some(i - start)
  {
    assert forall k :: 0 <= k < i - start ==> d[start..][k] == d[start + k];
    FirstSemicolon(d[start..], i - start);
  }

  lemma FoundSemicolon(d: string, start: nat, i: nat)
    requires start < i < |d| && d[start] == 'L' && d[i] == ';'
    requires forall k :: start <= k < i ==> d[k] != ';'
    ensures SlotsIn(d[start..]) == Plus1(SlotsIn(d[i + 1..]))
  {
    SemicolonAt(d, start, i);
    assert d[start..][i - start + 1..] == d[i + 1..];
  }

  // A reference model: descriptors built from parameter types.

  /** A field type of section 4.3.2: a base type letter (`B C D F I J S Z`),
      a class name, or an array of a component type. */
  datatype FieldType =
    | BaseType(letter: char)
    | ObjectType(className: string)
    | ArrayType(component: FieldType)

  predicate IsBaseLetter(c: char)
  {
    c == 'B' || c == 'C' || c == 'D' || c == 'F' || c == 'I' || c == 'J' || c == 'S' || c == 'Z'
  }

  predicate WellFormed(t: FieldType)
  {
    match t
    case BaseType(c) => IsBaseLetter(c)
    case ObjectType(name) => forall k :: 0 <= k < |name| ==> name[k] != ';'
    case ArrayType(e) => WellFormed(e)
  }

  function EncodeType(t: FieldType): string
  {
    match t
    case BaseType(c) => [c]
    case ObjectType(name) => "L" + name + ";"
    case ArrayType(e) => "[" + EncodeType(e)
  }

  function EncodeParams(ps: seq<FieldType>): string
  {
    if ps == [] then [] else EncodeType(ps[0]) + EncodeParams(ps[1..])
  }

  /** `( params ) ret`. */
  function EncodeDescriptor(ps: seq<FieldType>, ret: string): string
  {
    "(" + EncodeParams(ps) + ")" + ret
  }

  /** The slots the counter gives one parameter: one, plus one per array
      dimension. */
  function TypeSlots(t: FieldType): (n: nat)
    ensures n >= 1
  {
    match t
    case ArrayType(e) => 1 + TypeSlots(e)
    case _ => 1
  }

  function TotalSlots(ps: seq<FieldType>): nat
  {
    if ps == [] then 0 else TypeSlots(ps[0]) + TotalSlots(ps[1..])
  }

  lemma SlotsInClassName(name: string, rest: string)
    requires forall k :: 0 <= k < |name| ==> name[k] != ';'
    ensures SlotsIn("L" + name + ";" + rest) == Plus1(SlotsIn(rest))
  {
    var s := "L" + name + ";" + rest;
    var semi := |name| + 1;
    assert forall k :: 1 <= k < semi ==> s[k] == name[k - 1];
    SemicolonAt(s, 0, semi);
    assert s[0..] == s;
    assert s[semi + 1..] == rest;
  }

  lemma {:induction false} SlotsInType(t: FieldType, rest: string)
    requires WellFormed(t)
    ensures SlotsIn(EncodeType(t) + rest) == Plus1Times(SlotsIn(rest), TypeSlots(t))
  {
    match t
    case BaseType(c) =>
      assert (EncodeType(t) + rest)[1..] == rest;
    case ObjectType(name) =>
      SlotsInClassName(name, rest);
    case ArrayType(e) =>
      var s := EncodeType(t) + rest;
      assert s[1..] == EncodeType(e) + rest;
      SlotsInType(e, rest);
  }

  lemma {:induction false} SlotsInParams(ps: seq<FieldType>, ret: string)
    requires forall i :: 0 <= i < |ps| ==> WellFormed(ps[i])
    ensures SlotsIn(EncodeParams(ps) + ")" + ret) == Some(TotalSlots(ps))
  {
    if ps == [] {
      assert EncodeParams(ps) + ")" + ret == ")" + ret;
    } else {
      var tail := EncodeParams(ps[1..]) + ")" + ret;
      assert EncodeParams(ps) + ")" + ret == EncodeType(ps[0]) + tail;
      SlotsInType(ps[0], tail);
      SlotsInParams(ps[1..], ret);
    }
  }

  /** For a well-formed descriptor the counter gives each parameter one slot
      per type character it begins with: base types, `J` and `D` included,
      and class names take one slot, an array one more than its component;
      a call that is not `invokestatic` adds the receiver. */
  lemma {:induction false} ParamSlotsOfDescriptor(ps: seq<FieldType>, ret: string, isStatic: bool)
    requires forall i :: 0 <= i < |ps| ==> WellFormed(ps[i])
    ensures ParamSlots(EncodeDescriptor(ps, ret), isStatic) ==
              Some(TotalSlots(ps) + (if isStatic then 0 else 1))
  {
    var d := EncodeDescriptor(ps, ret);
    var body := EncodeParams(ps) + ")" + ret;
    assert d == "(" + body;
    assert d[1..] == body;
    SlotsInParams(ps, ret);
    assert SlotsIn(d[1..]) == Some(TotalSlots(ps));
  }

  /** Three examples: `(II)I` passes two slots, `(JD)V` also two (not four), and
      `()V` called on a receiver one. */
  lemma ParamSlotsExamples()
    ensures ParamSlots("(II)I", true) == Some(2)
    ensures ParamSlots("(JD)V", true) == Some(2)
    ensures ParamSlots("()V", false) == Some(1)
  {
    ParamSlotsOfDescriptor([BaseType('I'), BaseType('I')], "I", true);
    assert EncodeDescriptor([BaseType('I'), BaseType('I')], "I") == "(II)I";
    ParamSlotsOfDescriptor([BaseType('J'), BaseType('D')], "V", true);
    assert EncodeDescriptor([BaseType('J'), BaseType('D')], "V") == "(JD)V";
    ParamSlotsOfDescriptor([], "V", false);
    assert EncodeDescriptor([], "V") == "()V";
  }

  /** A descriptor returns a value unless its return type is `V`. */
  lemma ReturnsValueOfDescriptor(ps: seq<FieldType>, ret: string)
    requires forall k :: 0 <= k < |ret| ==> ret[k] != ')'
    ensures ReturnsValue(EncodeDescriptor(ps, ret)) <==> ret != "V"
  {
    var d := EncodeDescriptor(ps, ret);
    if |ret| == 0 {
      assert d[|d| - 1] == ')';
    } else if |ret| == 1 {
      assert d[|d| - 2..] == [')', ret[0]];
    } else {
      assert d[|d| - 2..] == ret[|ret| - 2..];
      assert ret[|ret| - 2] != ')';
    }
  }
}
