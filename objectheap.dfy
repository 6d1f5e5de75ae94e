/** The object heap: object bodies keyed by heap ids that are handed out in
    increasing order and never reused. */
module ObjectHeaps {
  import opened Frames

  /** An object's slots: slot 0 points at its class, the others are its
      fields in declaration order. */
  datatype ObjectBody = ObjectBody(variables: seq<Variable>)

  /** The shape `create_object` gives a new body for a class at `classPtr`
      with `fieldCount` object fields. */
  ghost predicate IsNewBody(b: ObjectBody, classPtr: nat, fieldCount: nat) {
    |b.variables| == fieldCount + 1 &&
    b.variables[0] == Pointer(classPtr) &&
    forall i :: 1 <= i < |b.variables| ==> b.variables[i] == Int(0)
  }

  /** The `variables` block of `create_object`: `fieldCount + 1` pushes of
      `Int(0)`, then slot 0 overwritten by the class pointer. */
  method NewVariables(classPtr: nat, fieldCount: nat) returns (vars: seq<Variable>)
    ensures |vars| == fieldCount + 1
    ensures vars[0] == Pointer(classPtr)
    ensures forall i :: 1 <= i < |vars| ==> vars[i] == Int(0)
  {
    var count := fieldCount + 1;
    vars := [];
    for k := 0 to count
      invariant |vars| == k
      invariant forall i :: 0 <= i < k ==> vars[i] == Int(0)
    {
      vars := vars + [Int(0)];
    }
    vars := vars[0 := Pointer(classPtr)];
  }

  class ObjectHeap {
    var objectMap: map<nat, ObjectBody>
    var id: nat

    /** Every id in use was handed out before the current `id`. */
    ghost predicate Valid()
      reads this
    {
      forall k :: k in objectMap ==> k < id
    }

    /** `ObjectHeap::new`: no objects, the first id is 0. */
    constructor ()
      ensures Valid() && objectMap == map[] && id == 0
    {
      objectMap := map[];
      id := 0;
    }

    /** `create_object` for a class at `classPtr` that declares `fieldCount`
        object fields (`get_object_field_count`, whose code is not part of
        this model). The body's registration with the collector is
        `Collectors.Collector.New`. */
    method CreateObject(classPtr: nat, fieldCount: nat) returns (obj: Variable)
      requires Valid()
      modifies this
      ensures Valid()
      ensures obj == Object(old(id)) && id == old(id) + 1
      ensures obj.heapId !in old(objectMap)
      ensures objectMap.Keys == old(objectMap).Keys + {obj.heapId}
      ensures forall k :: k in old(objectMap) ==> objectMap[k] == old(objectMap)[k]
      ensures IsNewBody(objectMap[obj.heapId], classPtr, fieldCount)
    {
      var vars := NewVariables(classPtr, fieldCount);
      var heapId := id;
      id := id + 1;
      objectMap := objectMap[heapId := ObjectBody(vars)];
      obj := Object(heapId);
    }
  }

  /** Two objects created one after the other get distinct ids, and the
      first keeps its body. */
  method CreateTwo(h: ObjectHeap, classPtr: nat, fieldCount: nat) returns (a: Variable, b: Variable)
    requires h.Valid()
    modifies h
    ensures h.Valid()
    ensures a.Object? && b.Object? && a.heapId != b.heapId && b.heapId == a.heapId + 1
    ensures a.heapId in h.objectMap && IsNewBody(h.objectMap[a.heapId], classPtr, fieldCount)
  {
    a := h.CreateObject(classPtr, fieldCount);
    b := h.CreateObject(classPtr, fieldCount);
  }
}
