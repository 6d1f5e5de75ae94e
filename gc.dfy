/** The mark-and-sweep collector's bookkeeping: a map from allocated
    pointers (abstract keys) to their type and mark, and a counter of
    allocated bytes that behaves like an atomic `usize`. */
module Collectors {
  import opened Base

  datatype GcTargetType = Array | Object | Class | Unknown
  datatype GcState = Marked | Unmarked
  datatype GcTargetInfo = GcTargetInfo(ty: GcTargetType, state: GcState)

  const USIZE_MOD: nat := 0x1_0000_0000_0000_0000
  /** The allocation threshold of `mark_and_sweep`: 16 KiB. */
  const THRESHOLD: nat := 16 * 1024

  type usize = x: int | 0 <= x < 0x1_0000_0000_0000_0000

  /** `fetch_add`/`fetch_sub` on an `AtomicUsize` wrap around. */
  function WrapUsize(x: int): (r: usize)
    ensures (r - x) % USIZE_MOD == 0
    ensures 0 <= x < USIZE_MOD ==> r == x
  {
    x % USIZE_MOD
  }

  predicate EndsWith(s: string, suffix: string) {
    |suffix| <= |s| && s[|s| - |suffix|..] == suffix
  }

  /** `GcTargetInfo::new_unmarked`: the type from the suffix of the Rust type
      name, tried as `Array`, `ObjectBody`, `Class`; never marked. */
  function NewUnmarked(tyName: string): (info: GcTargetInfo)
    ensures info.state == Unmarked
    ensures info.ty == Unknown <==>
              !EndsWith(tyName, "Array") && !EndsWith(tyName, "ObjectBody") && !EndsWith(tyName, "Class")
    ensures EndsWith(tyName, "Array") ==> info.ty == Array
    ensures EndsWith(tyName, "ObjectBody") ==> info.ty == Object
    ensures EndsWith(tyName, "Class") ==> info.ty == Class
  {
    SuffixesExclusive(tyName);
    GcTargetInfo(
      if EndsWith(tyName, "Array") then Array
      else if EndsWith(tyName, "ObjectBody") then Object
      else if EndsWith(tyName, "Class") then Class
      else Unknown,
      Unmarked)
  }

  /** The three suffixes exclude each other, so each name has at most one
      matching suffix and the order in which they are tried does not matter. */
  lemma SuffixesExclusive(tyName: string)
    ensures !(EndsWith(tyName, "Array") && EndsWith(tyName, "ObjectBody"))
    ensures !(EndsWith(tyName, "Array") && EndsWith(tyName, "Class"))
    ensures !(EndsWith(tyName, "ObjectBody") && EndsWith(tyName, "Class"))
  {
    var n := |tyName|;
    if EndsWith(tyName, "Array") {
      SuffixChar(tyName, "Array", 0);
      SuffixChar(tyName, "Array", 1);
      assert tyName[n - 1] == 'y' && tyName[n - 2] == 'a';
    }
    if EndsWith(tyName, "ObjectBody") {
      SuffixChar(tyName, "ObjectBody", 0);
      SuffixChar(tyName, "ObjectBody", 1);
      assert tyName[n - 1] == 'y' && tyName[n - 2] == 'd';
    }
    if EndsWith(tyName, "Class") {
      SuffixChar(tyName, "Class", 0);
      assert tyName[n - 1] == 's';
    }
  }

  lemma SuffixChar(s: string, suffix: string, k: nat)
    requires EndsWith(s, suffix) && k < |suffix|
    ensures s[|s| - 1 - k] == suffix[|suffix| - 1 - k]
  {
    assert s[|s| - |suffix|..][|suffix| - 1 - k] == s[|s| - 1 - k];
  }

  /** The names the runtime's three collected types carry, and the name
      `trace_ptr` falls back to for a pointer it does not know. */
  lemma NewUnmarkedOfRuntimeTypes()
    ensures NewUnmarked("ferrugo::exec::frame::Array").ty == Array
    ensures NewUnmarked("ferrugo::exec::objectheap::ObjectBody").ty == Object
    ensures NewUnmarked("ferrugo::class::class::Class").ty == Class
    ensures NewUnmarked("unknown").ty == Unknown
  {
    assert "ferrugo::exec::frame::Array"[22..] == "Array";
    assert "ferrugo::exec::objectheap::ObjectBody"[27..] == "ObjectBody";
    assert "ferrugo::class::class::Class"[23..] == "Class";
  }

  /** `get_size`: four bytes per element, object variable or static
      variable (`count` is that number), nothing for `Unknown`. */
  function GetSize(ty: GcTargetType, count: nat): (r: nat)
    ensures ty == Unknown ==> r == 0
    ensures ty != Unknown ==> r == 4 * count
  {
    match ty
    case Unknown => 0
    case _ => count * 4
  }

  /** The sizes `size_of_val` reports for a freed `Array`, `ObjectBody` and
      `Class`: fixed by the Rust compiler's layout and opaque here. */
  datatype TypeSizes = TypeSizes(arrayBytes: nat, objectBytes: nat, classBytes: nat)

  /** `free_ptr`: the size returned for a freed pointer of the given type. */
  function FreedSize(ty: GcTargetType, sizes: TypeSizes): nat {
    match ty
    case Array => sizes.arrayBytes
    case Object => sizes.objectBytes
    case Class => sizes.classBytes
    case Unknown => 0
  }

  /** `is_marked` in `free`: the trace map records the pointer as `Marked`;
      an absent pointer is unmarked. */
  predicate IsMarked(m: map<nat, GcTargetInfo>, p: nat) {
    p in m && m[p].state == Marked
  }

  /** The entries `free` keeps. */
  function Retained(mem: map<nat, GcTargetInfo>, m: map<nat, GcTargetInfo>): (r: map<nat, GcTargetInfo>)
    ensures forall p :: p in r <==> p in mem && IsMarked(m, p)
    ensures forall p :: p in r ==> r[p] == mem[p]
  {
    map p | p in mem && IsMarked(m, p) :: mem[p]
  }

  /** The size `free` releases when it visits `p`: nothing for a marked
      entry (or a key the registry does not hold), `free_ptr`'s size
      otherwise. */
  function Dropped(p: nat, mem: map<nat, GcTargetInfo>, m: map<nat, GcTargetInfo>, sizes: TypeSizes): nat {
    if IsMarked(m, p) || p !in mem then 0 else FreedSize(mem[p].ty, sizes)
  }

  /** One visit of `free`: a dropped entry's size is subtracted, wrapping. */
  function SweepStep(c: usize, p: nat, mem: map<nat, GcTargetInfo>, m: map<nat, GcTargetInfo>, sizes: TypeSizes): usize {
    if IsMarked(m, p) then c else WrapUsize(c - Dropped(p, mem, m, sizes))
  }

  /** The counter after `free` has visited `order` (the map's iteration
      order). */
  function SweepCounter(c: usize, order: seq<nat>, mem: map<nat, GcTargetInfo>,
                        m: map<nat, GcTargetInfo>, sizes: TypeSizes): usize
    decreases |order|
  {
    if order == [] then c
    else SweepStep(SweepCounter(c, order[..|order| - 1], mem, m, sizes), order[|order| - 1], mem, m, sizes)
  }

  /** The bytes released by the entries of `order` that are not marked. */
  function Released(order: seq<nat>, mem: map<nat, GcTargetInfo>,
                    m: map<nat, GcTargetInfo>, sizes: TypeSizes): nat
    decreases |order|
  {
    if order == [] then 0
    else Released(order[..|order| - 1], mem, m, sizes) + Dropped(order[|order| - 1], mem, m, sizes)
  }

  /** Whatever the iteration order, the wrapped subtractions add up to one
      subtraction of the released total. */
  lemma {:induction false} SweepCounterReleases(c: usize, order: seq<nat>, mem: map<nat, GcTargetInfo>,
                                                m: map<nat, GcTargetInfo>, sizes: TypeSizes)
    ensures SweepCounter(c, order, mem, m, sizes) == WrapUsize(c - Released(order, mem, m, sizes))
    decreases |order|
  {
    if order != [] {
      var init := order[..|order| - 1];
      var p := order[|order| - 1];
      var x := Dropped(p, mem, m, sizes);
      var before := Released(init, mem, m, sizes);
      var c' := SweepCounter(c, init, mem, m, sizes);
      SweepCounterReleases(c, init, mem, m, sizes);
      assert SweepStep(c', p, mem, m, sizes) == WrapUsize(c' - x);
      WrapShift(c', c - before, x);
    }
  }

  /** Without wrap-around the counter simply drops by the released total. */
  lemma SweepCounterNoWrap(c: usize, order: seq<nat>, mem: map<nat, GcTargetInfo>,
                           m: map<nat, GcTargetInfo>, sizes: TypeSizes)
    requires Released(order, mem, m, sizes) <= c
    ensures SweepCounter(c, order, mem, m, sizes) == c - Released(order, mem, m, sizes)
  {
    SweepCounterReleases(c, order, mem, m, sizes);
  }

  /** Congruent counters give the same wrapped difference. */
  lemma WrapShift(a: int, b: int, d: int)
    requires a == WrapUsize(b)
    ensures WrapUsize(a - d) == WrapUsize(b - d)
  {
    var k := (a - b) / USIZE_MOD;
    assert a - d == (b - d) + k * USIZE_MOD;
  }

  /** The entries `free` has kept after visiting `s`. */
  function KeptOf(s: seq<nat>, mem: map<nat, GcTargetInfo>, m: map<nat, GcTargetInfo>): map<nat, GcTargetInfo>
  {
    if s == [] then map[]
    else
      var p := s[|s| - 1];
      var r := KeptOf(s[..|s| - 1], mem, m);
      if IsMarked(m, p) && p in mem then r[p := mem[p]] else r
  }

  /** Having visited every key, `free` has kept exactly `Retained`. */
  lemma {:induction false} KeptOfRetained(s: seq<nat>, mem: map<nat, GcTargetInfo>, m: map<nat, GcTargetInfo>)
    ensures KeptOf(s, mem, m) == map p | p in s && p in mem && IsMarked(m, p) :: mem[p]
    ensures (forall p :: p in mem ==> p in s) ==> KeptOf(s, mem, m) == Retained(mem, m)
    decreases |s|
  {
    if s != [] {
      var t := s[..|s| - 1];
      KeptOfRetained(t, mem, m);
      assert s == t + [s[|s| - 1]];
    }
  }

  /** Tracing nothing frees everything; tracing every entry frees nothing. */
  lemma RetainedExtremes(mem: map<nat, GcTargetInfo>)
    ensures Retained(mem, map[]) == map[]
    ensures Retained(mem, map p | p in mem :: GcTargetInfo(mem[p].ty, Marked)) == mem
  {
  }

  /** A pointer that `trace_ptr` recorded survives the following `free`,
      with its registry entry unchanged. */
  lemma TracedSurvives(mem: map<nat, GcTargetInfo>, m: map<nat, GcTargetInfo>, ptr: nat, ty: GcTargetType)
    requires ptr in mem
    ensures var r := Retained(mem, m[ptr := GcTargetInfo(ty, Marked)]);
            ptr in r && r[ptr] == mem[ptr] && r.Keys <= mem.Keys
  {
  }

  class Collector {
    /** `GC_MEM`: every registered pointer with its type and mark. */
    var mem: map<nat, GcTargetInfo>
    /** `ALLOCATED_MEM_SIZE_BYTE`. */
    var allocatedBytes: usize

    /** The registry itself is never marked: marks live only in the map a
        trace builds. */
    ghost predicate Valid()
      reads this
    {
      forall p :: p in mem ==> mem[p].state == Unmarked
    }

    /** The initial registry and counter. */
    constructor ()
      ensures Valid() && mem == map[] && allocatedBytes == 0
    {
      mem := map[];
      allocatedBytes := 0;
    }

    /** `gc::new`: a fresh pointer `ptr` (from `Box::into_raw`) to a value
        whose Rust type is named `tyName` and which holds `count` elements
        or variables is registered unmarked, and its size is added to the
        counter. */
    method New(ptr: nat, tyName: string, count: nat)
      requires Valid() && ptr !in mem
      modifies this
      ensures Valid()
      ensures mem == old(mem)[ptr := NewUnmarked(tyName)]
      ensures allocatedBytes == WrapUsize(old(allocatedBytes) + GetSize(NewUnmarked(tyName).ty, count))
    {
      var info := NewUnmarked(tyName);
      allocatedBytes := WrapUsize(allocatedBytes + GetSize(info.ty, count));
      mem := mem[ptr := info];
    }

    /** The effect of `trace_ptr` on the trace map `m`: the pointer is
        recorded as `Marked` with its registered type. An unregistered
        pointer falls back to `Unknown`, which panics: `None`. */
    method TracePtr(ptr: nat, m: map<nat, GcTargetInfo>) returns (r: Option<map<nat, GcTargetInfo>>)
      ensures r.None? <==> ptr !in mem || mem[ptr].ty == Unknown
      ensures r.Some? ==> r.value == m[ptr := GcTargetInfo(mem[ptr].ty, Marked)]
    {
      var info := if ptr in mem then mem[ptr] else NewUnmarked("unknown");
      NewUnmarkedOfRuntimeTypes();
      if info.ty == Unknown {
        return None;
      }
      r := Some(m[ptr := GcTargetInfo(info.ty, Marked)]);
    }

    /** `free`: the registry keeps exactly the entries the trace map `m`
        marks; while it walks the map in iteration order `order`, every
        dropped entry's size is subtracted from the counter. */
    method Free(m: map<nat, GcTargetInfo>, order: seq<nat>, sizes: TypeSizes)
      requires Valid()
      requires forall p :: p in mem <==> p in order
      requires forall i, j :: 0 <= i < j < |order| ==> order[i] != order[j]
      modifies this
      ensures Valid()
      ensures mem == Retained(old(mem), m)
      ensures allocatedBytes == SweepCounter(old(allocatedBytes), order, old(mem), m, sizes)
    {
      ghost var mem0 := mem;
      ghost var c0 := allocatedBytes;
      var kept: map<nat, GcTargetInfo> := map[];
      for k := 0 to |order|
        invariant mem == mem0
        invariant kept == KeptOf(order[..k], mem0, m)
        invariant allocatedBytes == SweepCounter(c0, order[..k], mem0, m, sizes)
      {
        var p := order[k];
        assert order[..k + 1][..k] == order[..k];
        if IsMarked(m, p) {
          kept := kept[p := mem[p]];
        } else {
          allocatedBytes := WrapUsize(allocatedBytes - FreedSize(mem[p].ty, sizes));
          assert FreedSize(mem[p].ty, sizes) == Dropped(p, mem0, m, sizes);
        }
      }
      assert order[..|order|] == order;
      KeptOfRetained(order, mem0, m);
      mem := kept;
    }

    /** `mark_and_sweep` for the trace map `m` that `trace` builds from the
        VM's frames and stack: nothing happens at or below 16 KiB; above,
        `free` runs. */
    method MarkAndSweep(m: map<nat, GcTargetInfo>, order: seq<nat>, sizes: TypeSizes)
      requires Valid()
      requires forall p :: p in mem <==> p in order
      requires forall i, j :: 0 <= i < j < |order| ==> order[i] != order[j]
      modifies this
      ensures Valid()
      ensures old(allocatedBytes) <= THRESHOLD ==> mem == old(mem) && allocatedBytes == old(allocatedBytes)
      ensures old(allocatedBytes) > THRESHOLD ==>
                mem == Retained(old(mem), m) &&
                allocatedBytes == SweepCounter(old(allocatedBytes), order, old(mem), m, sizes)
    {
      if allocatedBytes <= THRESHOLD {
        return;
      }
      Free(m, order, sizes);
    }
  }
}
